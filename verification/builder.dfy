/**
 * The builder facade of lib/yargs/yargs-builder.class.ts: it owns the yargs
 * instance, adapts each command descriptor and hands it to the builder
 * implementation, either one command at a time or for every command of the
 * collective found at the schema's `paths.collective` inside a container.
 */
module Builder {
  import opened Js
  import opened Yargs
  import opened BuilderImpl
  import Adapter

  /** The part of the conversion schema the builder reads: `paths.collective`. */
  datatype Schema = Schema(collective: string)

  /** `R.view(R.lensPath(keys))`: follow the keys, undefined once a step is missing. */
  function View(keys: seq<string>, target: Option<Json>): Option<Json>
  {
    if keys == [] then target
    else
      match target
      case None => None
      case Some(v) => View(keys[1..], Get(v, keys[0]))
  }

  /** The collective of `container` at the slash-separated path. */
  function Collective(container: Json, path: string): Option<Json>
  {
    View(Split(path, '/'), Some(container))
  }

  /** The values of an object's own properties, in enumeration order. */
  function Values(props: seq<Prop>): (values: seq<Json>)
    ensures |values| == |props|
    ensures forall i :: 0 <= i < |props| ==> values[i] == props[i].value
  {
    seq(|props|, i requires 0 <= i < |props| => props[i].value)
  }

  /** The outcome of building each command on its own, in order. */
  function CommandTraces(commands: seq<Json>): seq<Trace>
  {
    Map(BuildCommandTrace, commands)
  }

  /** One step of a reduce that stops at the first throw. */
  function Then(done: Trace, next: Trace): Trace
  {
    if done.error.Some? then done else Trace(done.events + next.events, next.error)
  }

  /** The steps run one after another on the same instance, left to right. */
  function Chain(traces: seq<Trace>): Trace
  {
    if traces == [] then Trace([], None)
    else Then(Chain(traces[..|traces| - 1]), traces[|traces| - 1])
  }

  /**
   * The reduce of `buildAllCommands` over the commands, in order: each one is
   * adapted (which leaves it equal) and built on the accumulated instance; a
   * command that throws ends the reduce.
   */
  function FoldCommands(commands: seq<Json>): Trace
  {
    Chain(CommandTraces(commands))
  }

  /** What `buildAllCommands(container)` registers and throws. */
  function BuildAllTrace(container: Json, path: string): Trace
  {
    match Collective(container, path)
    case None => Trace([], Some(CommandsNotFound(path)))
    case Some(collective) =>
      if !Truthy(collective) then Trace([], Some(CommandsNotFound(path)))
      else if collective.Arr? then FoldCommands(collective.items)
      else if collective.Obj? then FoldCommands(Values(collective.props))
      else Trace([], Some(CommandsMalformed(path)))
  }

  lemma FoldCommandsPrefix(commands: seq<Json>, i: nat)
    requires i < |commands|
    ensures FoldCommands(commands[..i + 1]) == Then(FoldCommands(commands[..i]), BuildCommandTrace(commands[i]))
  {
    MapPrefix(BuildCommandTrace, commands[..i + 1], i);
    assert commands[..i + 1][..i] == commands[..i];
  }

  class YargsBuilder {
    var instance: Argv
    const schema: Schema
    const adapter: Adapter.YargsAdapter
    const impl: YargsBuilderImpl

    /** A missing adapter or implementation is replaced by a fresh default one. */
    constructor (instance: Argv, schema: Schema, adapter: Adapter.YargsAdapter?, impl: YargsBuilderImpl?)
      ensures this.instance == instance && this.schema == schema
      ensures adapter != null ==> this.adapter == adapter
      ensures adapter == null ==> fresh(this.adapter)
      ensures impl != null ==> this.impl == impl
      ensures impl == null ==> fresh(this.impl)
    {
      this.instance := instance;
      this.schema := schema;
      if adapter != null {
        this.adapter := adapter;
      } else {
        this.adapter := new Adapter.YargsAdapter();
      }
      if impl != null {
        this.impl := impl;
      } else {
        this.impl := new YargsBuilderImpl();
      }
    }

    /** `buildCommand(command)`: adapt the command and build it on the instance. */
    method BuildCommand(command: Json) returns (error: Option<Error>)
      modifies instance
      ensures instance.events == old(instance.events) + BuildCommandTrace(command).events
      ensures error == BuildCommandTrace(command).error
    {
      var adaptedCommand := adapter.Adapt(command);
      error := impl.BuildCommand(instance, adaptedCommand);
    }

    /**
     * `buildAllCommands(container)`: every command of the collective, in array
     * or property order, or the error for a collective that is missing, falsy
     * or neither an array nor an object. Returns the (same) instance.
     */
    method BuildAllCommands(container: Json) returns (result: Result<Argv, Error>)
      modifies instance
      ensures instance == old(instance)
      ensures instance.events == old(instance.events) + BuildAllTrace(container, schema.collective).events
      ensures BuildAllTrace(container, schema.collective).error.Some? ==>
                result == Failure(BuildAllTrace(container, schema.collective).error.value)
      ensures BuildAllTrace(container, schema.collective).error.None? ==> result == Success(instance)
    {
      var collective := View(Split(schema.collective, '/'), Some(container));
      if collective.Some? && Truthy(collective.value) {
        var error: Option<Error>;
        if collective.value.Arr? {
          error := BuildEach(collective.value.items);
        } else if collective.value.Obj? {
          error := BuildEach(Values(collective.value.props));
        } else {
          return Failure(CommandsMalformed(schema.collective));
        }
        if error.Some? {
          return Failure(error.value);
        }
        return Success(instance);
      }
      return Failure(CommandsNotFound(schema.collective));
    }

    /** The reduce over the commands: build each in turn, stop at a throw. */
    method BuildEach(commands: seq<Json>) returns (error: Option<Error>)
      modifies instance
      ensures instance.events == old(instance.events) + FoldCommands(commands).events
      ensures error == FoldCommands(commands).error
    {
      for i := 0 to |commands|
        invariant instance.events == old(instance.events) + FoldCommands(commands[..i]).events
        invariant FoldCommands(commands[..i]).error.None?
      {
        FoldCommandsPrefix(commands, i);
        AppendAssociates(old(instance.events), FoldCommands(commands[..i]).events,
                         BuildCommandTrace(commands[i]).events);
        error := BuildCommand(commands[i]);
        if error.Some? {
          MapPrefix(BuildCommandTrace, commands, i + 1);
          ChainErrorPersists(CommandTraces(commands), i + 1);
          return;
        }
      }
      assert commands[..|commands|] == commands;
      return None;
    }
  }

  /** Once a step throws, the later steps change nothing. */
  lemma {:induction false} ChainErrorPersists(traces: seq<Trace>, k: nat)
    requires k <= |traces|
    requires Chain(traces[..k]).error.Some?
    ensures Chain(traces) == Chain(traces[..k])
    decreases |traces| - k
  {
    if k < |traces| {
      var init := traces[..|traces| - 1];
      assert init[..k] == traces[..k];
      ChainErrorPersists(init, k);
    } else {
      assert traces[..k] == traces;
    }
  }
}
