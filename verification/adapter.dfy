/**
 * The adapter of lib/yargs/yargs-adapter.class.ts: `adapt` hands the builder a
 * deep clone of the command descriptor.
 */
module Adapter {
  import opened Js

  /** `R.clone`: rebuilds every array and object of the tree. */
  function Clone(v: Json): (r: Json)
    ensures r == v
  {
    match v
    case Arr(items) =>
      var copies := seq(|items|, i requires 0 <= i < |items| => Clone(items[i]));
      assert forall i :: 0 <= i < |items| ==> copies[i] == items[i];
      assert copies == items;
      Arr(copies)
    case Obj(props) =>
      var copies := seq(|props|, i requires 0 <= i < |props| => Prop(props[i].key, Clone(props[i].value)));
      assert forall i :: 0 <= i < |props| ==> copies[i] == props[i];
      assert copies == props;
      Obj(copies)
    case _ => v
  }

  class YargsAdapter {
    constructor ()
    {
    }

    /**
     * `adapt(command)`: a structurally equal copy. Descriptor values are
     * immutable here, so the caller's command can never be changed through it.
     */
    function Adapt(command: Json): (adapted: Json)
      ensures adapted == command
    {
      Clone(command)
    }

    /** `prepareValidationGroups(command)`: looks at `_children` and returns the command. */
    function PrepareValidationGroups(command: Json): (r: Json)
      ensures r == command
    {
      var descendants := Get(command, "_children");
      if descendants.Some? && descendants.value.Arr? then
        command
      else
        command
    }

    lemma AdaptIdempotent(command: Json)
      ensures Adapt(Adapt(command)) == Adapt(command)
    {
    }
  }
}
