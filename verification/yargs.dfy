/**
 * The command-line library (yargs) as seen by the builder: an instance whose
 * registration calls are recorded, in order, in an append-only event log. Each
 * call mutates the one shared instance and returns it, so the builder's
 * reassignments of `instance`, `yin` and the reduce accumulators all denote
 * this same object.
 */
module Yargs {
  import opened Js

  datatype Event =
    | FailHandler
      /** `command(usage, description, builder)`; `builder` holds what the
          builder callback registers on the instance yargs hands it. */
    | Command(usage: Option<Json>, description: Option<Json>, builder: seq<Event>)
    | Positional(name: string, definition: Json)
    | Options(options: seq<Prop>)
    | Conflicts(first: Option<Json>, second: Option<Json>)
    | Implies(antecedent: Option<Json>, consequent: Option<Json>)

  class Argv {
    var events: seq<Event>

    constructor ()
      ensures events == []
    {
      events := [];
    }

    /** `fail(callback)`: installs the fail hook. */
    method Fail()
      modifies this
      ensures events == old(events) + [FailHandler]
    {
      events := events + [FailHandler];
    }

    method Command(usage: Option<Json>, description: Option<Json>, builder: seq<Event>)
      modifies this
      ensures events == old(events) + [Event.Command(usage, description, builder)]
    {
      events := events + [Event.Command(usage, description, builder)];
    }

    method Positional(name: string, definition: Json)
      modifies this
      ensures events == old(events) + [Event.Positional(name, definition)]
    {
      events := events + [Event.Positional(name, definition)];
    }

    method Options(options: seq<Prop>)
      modifies this
      ensures events == old(events) + [Event.Options(options)]
    {
      events := events + [Event.Options(options)];
    }

    method Conflicts(first: Option<Json>, second: Option<Json>)
      modifies this
      ensures events == old(events) + [Event.Conflicts(first, second)]
    {
      events := events + [Event.Conflicts(first, second)];
    }

    method Implies(antecedent: Option<Json>, consequent: Option<Json>)
      modifies this
      ensures events == old(events) + [Event.Implies(antecedent, consequent)]
    {
      events := events + [Event.Implies(antecedent, consequent)];
    }
  }
}
