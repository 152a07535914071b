# aergia-cli-ts command builder, modelled in Dafny

This project models the part of aergia-cli-ts that turns a JSON command
descriptor into registrations on a yargs instance. It covers four pieces:

- **Sequence helpers.** `uniquePairs` expands a validation group into
  ordered pairs. `startsWithAny` is a prefix test.
- **The builder implementation, `YargsBuilderImpl`.**
  - `findDescendant` locates the `Arguments` and `ArgumentGroups` nodes.
  - `positionalDef` turns a `positional` directive such as `"from to"` into
    the usage string `copy <from>[to]`.
  - `handleOptions` registers, in one `options` call, the `Arguments` node's
    own properties minus those keyed by the command name or the positional
    markers.
  - `handleValidationGroups` registers `conflicts`/`implies` pairs.
  - `command` runs these steps in order.
- **The facade, `YargsBuilder`.** `buildCommand` adapts one command and builds
  it. `buildAllCommands` finds the command collective at a slash-separated
  path in a container and builds every command in it.
- **The adapter.** `adapt` returns a deep clone.

How the model represents the system:

- **Descriptors** are the datatype `Js.Json`. An object is its list of
  own properties in enumeration order. A JavaScript `undefined` is the `None`
  of a property read.
- **The yargs instance** is the class `Yargs.Argv`. Each registration call
  appends an event to its log. The registrations made by a command's builder
  callback sit inside that command's `Command` event.
- **Each imperative operation** is a method that mutates an `Argv`. Its
  `ensures` equates the new log with the old log followed by a specification
  function of the inputs:
  - `CommandTrace` and `BuildCommandTrace` for one command
  - `FoldCommands` and `BuildAllTrace` for all commands
  - `Decorate` for the positional reduce
  - `OptionsRegistration` for the options
  - `GroupsRegistrations` for the validation groups
- **A thrown error** is an `Error` value. It is returned alongside the
  events registered before the throw.

The model keeps the following behaviours as the code has them:

- The markers of the usage string are concatenated with no separator.
- `positionalDef` reads each argument's definition from the `Arguments` node
  itself, not from the node's `_children` (`NestedDefinitionIsNotSeen`).
- `positional` registers only when the definition has a key named like the
  argument.
- `pickNonPositionalArguments` is handed the whole usage string, so it drops
  only keys equal to the command name or the markers
  (`PickAgainstDefinition`).
- `handleOptions` picks from the `Arguments` node's own properties, so the
  label `_` and the `_children` object are registered as options along with
  the positional arguments (`CopyOptionsRegistersEveryProperty`).

## Model

| member | source | states |
|---|---|---|
| Helpers.UniqWith | lib/utils/helpers.ts:28 | `R.uniqWith` never returns more elements than it is given |
| Helpers.UniqWithDeduplicates | lib/utils/helpers.ts:28 | what `uniqWith` keeps has no two equal elements, and a list without duplicates is kept whole |
| Helpers.UniqWithCovers | lib/utils/helpers.ts:28 | `uniqWith` keeps only elements of the input, and every input element is kept or is `equals` to a kept element |
| Helpers.UniqWithFirstOccurrences | lib/utils/helpers.ts:28 | `uniqWith` keeps the input at strictly increasing positions, and every position it drops is `equals` to an element kept from an earlier position, so it keeps the first of each run of equal elements in input order |
| Helpers.FirstOccurrencesSkip | lib/utils/helpers.ts:28 | a last element `equals` to a kept one leaves the kept positions unchanged |
| Helpers.FirstOccurrencesKeep | lib/utils/helpers.ts:28 | a last element that is kept adds its own position after all earlier ones |
| Helpers.IncludesWithAt | lib/utils/helpers.ts:28 | `includesWith` holds exactly when some kept element is equal to the candidate |
| Helpers.Row | lib/utils/helpers.ts:18-24 | the inner `forEach` pushes `(first, get(y))` for every later element `y`, in order |
| Helpers.PairRows | lib/utils/helpers.ts:16-28 | the nested reduce/forEach with its `count` index produces the rows `RowsUpTo` (outer element `i` paired with every source element after position `i`) |
| Helpers.UniquePairs | lib/utils/helpers.ts:4-30 | `uniquePairs` as written: empty below two elements, the single undeduplicated pair at two, otherwise the rows of the deduplicated list against the original sequence |
| Helpers.UniquePairsDeduped | lib/utils/helpers.ts:16-28 | corrected `uniquePairs`: exactly the ordered pairs of the deduplicated list |
| Helpers.StartsWithAny | lib/utils/helpers.ts:32-41 | true iff some string is a prefix of the value (so false for an empty list); the loop stops at the first match |
| Helpers.ShortSequenceHasNoPairs | lib/utils/helpers.ts:10-12 | fewer than two elements give no pairs, as written and corrected |
| Helpers.TwoElementsGiveOnePair | lib/utils/helpers.ts:13-15 | two elements give their one pair even when they are equal |
| Helpers.OrderedPairsOfTwo | lib/utils/helpers.ts:13-15 | the general ordered pairs of two elements are that same single pair |
| Helpers.DistinctElementsGiveOrderedPairs | lib/utils/helpers.ts:16-28 | for pairwise distinct elements, both the as-written and the corrected results are the ordered pairs `i < j` |
| Helpers.OrderedPairsCount | lib/utils/helpers.ts:16-28 | `n` elements give `n(n-1)/2` ordered pairs (3 give 3, 4 give 6) |
| Helpers.OrderedPairsAt | lib/utils/helpers.ts:17-24 | the pair `(get(s[i]), get(s[j]))`, `i < j`, sits at position `PairIndex(i, j, n)`: ordered by `i`, then `j` |
| Helpers.RowsUpToEntry | lib/utils/helpers.ts:19-24 | row `i` holds the pair with source element `j` at offset `j - i - 1` |
| Helpers.RowsUpToKeeps | lib/utils/helpers.ts:17-27 | later outer iterations only push after earlier ones, never changing them |
| Helpers.RowsUpToStart | lib/utils/helpers.ts:17-27 | after `k` outer iterations the accumulator holds `RowStart(k, n)` pairs, the sum of `n - i - 1` for `i < k` |
| Helpers.RowStartClosed | lib/utils/helpers.ts:17-27 | the closed form `2 * RowStart(k, n) == k(2n - k - 1)` |
| Helpers.PairsAsWrittenCount | lib/utils/helpers.ts:16-28 | with `n >= 3` elements of which `m` are distinct, as written yields `RowStart(m, n)` pairs: the sum over `k < m` of `n - k - 1` |
| Helpers.PairsAsWrittenAt | lib/utils/helpers.ts:16-28 | as written, with three or more elements, the pair of the `i`-th kept element and the `j`-th ORIGINAL element (`i < j`) sits at `PairIndex(i, j, n)` |
| Helpers.RowsAt | lib/utils/helpers.ts:17-24 | in the rows of an outer list against a source list, the pair of `outer[i]` and `source[j]` sits at `PairIndex(i, j, |source|)` |
| Helpers.DedupedPairsAreDistinct | lib/utils/helpers.ts:16-28 | the corrected pairs never pair two equal elements, and each pair sits at its `PairIndex` |
| Helpers.UniqWithOneOne | lib/utils/helpers.ts:28 | `uniqWith` of `[1, 1]` is `[1]` |
| Helpers.UniqWithOneOneTwo | lib/utils/helpers.ts:28 | `uniqWith` of `[1, 1, 2]` is `[1, 2]` |
| Helpers.TwoEqualElementsGiveSelfPair | lib/utils/helpers.ts:13-15 | as written, `[1, 1]` yields the self pair `(1,1)`, where the deduplicated list has no pair |
| Helpers.RowsOfOneOneTwo | lib/utils/helpers.ts:17-28 | the rows of `[1, 2]` against `[1, 1, 2]` are `(1,1), (1,2), (2,2)` |
| Helpers.RowsOfOneTwo | lib/utils/helpers.ts:17-28 | the rows of `[1, 2]` against itself are `(1,2)` |
| Helpers.DuplicateElementsGiveSelfPairs | lib/utils/helpers.ts:16-28 | `[1, 1, 2]` yields `(1,1), (1,2), (2,2)` as written, where the deduplicated pairs are `(1,2)` alone |
| Js.ToDisplay | lib/yargs/yargs-builder.impl.ts:130 | template-literal conversion: `undefined` shows as "undefined", a string as itself |
| Js.Split | lib/yargs/yargs-builder.impl.ts:114 | `split` yields at least one piece, no piece contains the separator, and joining the pieces gives the input back |
| Js.SplitNoSeparator | lib/yargs/yargs-builder.impl.ts:114 | a string without the separator splits into itself |
| Js.SplitAfterPiece | lib/yargs/yargs-builder.impl.ts:114 | splitting `a + sep + b` (`a` separator-free) gives `a`, then the pieces of `b` |
| Js.SplitTwoPieces | lib/yargs/yargs-builder.impl.ts:176 | two separator-free pieces joined by one separator split back into exactly those two pieces |
| Js.SplitJoin | lib/yargs/yargs-builder.impl.ts:114 | splitting the join of separator-free pieces gives the pieces back |
| Js.FlatMapPrefix | lib/yargs/yargs-builder.impl.ts:239-265 | one more group is one more step of the outer reduce, appending that group's registrations |
| Js.FlatMapAppend | lib/yargs/yargs-builder.impl.ts:239-265 | registering the groups of a concatenation registers each part's, in order |
| Yargs.Argv.Fail | lib/yargs/yargs-builder.impl.ts:26 | installing the fail hook appends its event |
| Yargs.Argv.Command | lib/yargs/yargs-builder.impl.ts:64-71 | `command(usage, description, builder)` appends the command with its builder's registrations |
| Yargs.Argv.Positional | lib/yargs/yargs-builder.impl.ts:152 | `positional(name, def)` appends its event |
| Yargs.Argv.Options | lib/yargs/yargs-builder.impl.ts:214 | `options(map)` appends its event |
| Yargs.Argv.Conflicts | lib/yargs/yargs-builder.impl.ts:255 | `conflicts(a, b)` appends its event |
| Yargs.Argv.Implies | lib/yargs/yargs-builder.impl.ts:258 | `implies(a, b)` appends its event |
| BuilderImpl.YargsBuilderImpl.BuildCommand | lib/yargs/yargs-builder.impl.ts:22-29 | installs the fail hook, then appends exactly `CommandTrace` and returns its error |
| BuilderImpl.YargsBuilderImpl.Command | lib/yargs/yargs-builder.impl.ts:40-74 | appends exactly the command's trace: nothing for non-array children; the positional registrations; then, unless a token threw, the command under `name markers` (with a directive) or the bare name (without one) |
| BuilderImpl.YargsBuilderImpl.Builder | lib/yargs/yargs-builder.impl.ts:65-71 | the builder callback registers the options, then the validation groups, on the instance it is handed |
| BuilderImpl.YargsBuilderImpl.PositionalDef | lib/yargs/yargs-builder.impl.ts:107-133 | a present directive that is not a string throws; otherwise the positional registrations are appended, and the result is `name markers` or the first token's error; an absent directive counts as no tokens (see Left out) |
| BuilderImpl.YargsBuilderImpl.DecorateTokens | lib/yargs/yargs-builder.impl.ts:115-127 | the reduce over the tokens appends each defined token's registration and marker, and stops at the first undefined one with its error |
| BuilderImpl.YargsBuilderImpl.Positional | lib/yargs/yargs-builder.impl.ts:147-155 | registers the argument only when the definition has an own key of that name |
| BuilderImpl.YargsBuilderImpl.HandleOptions | lib/yargs/yargs-builder.impl.ts:193-219 | registers the picked options only for an Arguments object whose `_children` is a non-array object |
| BuilderImpl.YargsBuilderImpl.HandleValidationGroups | lib/yargs/yargs-builder.impl.ts:231-269 | acts only on a group node that is an object with array children |
| BuilderImpl.YargsBuilderImpl.HandleGroups | lib/yargs/yargs-builder.impl.ts:239-265 | the outer reduce appends every group's registrations, group after group |
| BuilderImpl.YargsBuilderImpl.HandleValidator | lib/yargs/yargs-builder.impl.ts:241-263 | a Conflicts/Implies group with array children appends one `conflicts`/`implies` per pair that `uniquePairs` returns as written, in order; anything else appends nothing |
| BuilderImpl.PickNonPositionalArguments | lib/yargs/yargs-builder.impl.ts:174-180 | keeps exactly the properties whose key is none of the space-separated tokens, values unchanged |
| BuilderImpl.DropKeys | lib/yargs/yargs-builder.impl.ts:177-179 | `pickBy` keeps a property exactly when it is among the input's and its key is not listed, and never adds any |
| BuilderImpl.DecorateErrorPersists | lib/yargs/yargs-builder.impl.ts:115-127 | once a token throws, later tokens change nothing |
| BuilderImpl.DecoratePrefix | lib/yargs/yargs-builder.impl.ts:115-127 | one more token is one more step of the reduce |
| BuilderImpl.PairEventsPrefix | lib/yargs/yargs-builder.impl.ts:252-261 | one more pair is one more registration |
| BuilderImpl.CommandTraceOfTokensFailure | lib/yargs/yargs-builder.impl.ts:52-56 | a directive that cannot be split makes the command throw before registering anything |
| BuilderImpl.CommandTraceOfTokens | lib/yargs/yargs-builder.impl.ts:52-71 | with array children and split tokens, the command's trace is that of the decorated tokens |
| BuilderImplProperties.FindDescendantNone | lib/yargs/yargs-builder.impl.ts:86-90 | `findDescendant` finds nothing exactly when no node has that `_` kind |
| BuilderImplProperties.FindDescendantFirst | lib/yargs/yargs-builder.impl.ts:86-90 | the first node of the kind is the one found, whatever follows it |
| BuilderImplProperties.FindDescendantFound | lib/yargs/yargs-builder.impl.ts:86-90 | whatever is found is the first node of the kind |
| BuilderImplProperties.DecorateSucceedsIff | lib/yargs/yargs-builder.impl.ts:116-126 | the positional reduce succeeds exactly when every token is defined as an object |
| BuilderImplProperties.DecorateSuccessDefined | lib/yargs/yargs-builder.impl.ts:116-126 | a positional reduce that did not throw met only tokens defined as objects |
| BuilderImplProperties.DecorateFailureUndefined | lib/yargs/yargs-builder.impl.ts:116-126 | a positional reduce that threw met a token not defined as an object |
| BuilderImplProperties.DecorateStepSucceeds | lib/yargs/yargs-builder.impl.ts:116-126 | one step succeeds exactly when the earlier steps did and its token is defined |
| BuilderImplProperties.DecorateFirstFailure | lib/yargs/yargs-builder.impl.ts:116-126 | the first undefined token decides the error (reading from a missing Arguments node, or "not correctly defined"); registrations made before it stay |
| BuilderImplProperties.DecorateOutput | lib/yargs/yargs-builder.impl.ts:115-127 | on success the definition is every token's `[name]`/`<name>` marker in order with no separator, and the registrations are every token's, in order |
| BuilderImplProperties.DecorateMarkersHaveNoSpace | lib/yargs/yargs-builder.impl.ts:120-123 | markers of space-free tokens contain no space |
| BuilderImplProperties.DecorateErrorKinds | lib/yargs/yargs-builder.impl.ts:116-126 | the reduce throws only the two positional errors |
| BuilderImplProperties.CopyTokens | lib/yargs/yargs-builder.impl.ts:114 | the directive "from to" splits into `from` and `to` |
| BuilderImplProperties.CopyPositionalDefinition | lib/yargs/yargs-builder.impl.ts:115-127 | with `from` required and `to` optional (`optional` defaulting to false), the markers are `<from>[to]` |
| BuilderImplProperties.UndefinedPositionalThrows | lib/yargs/yargs-builder.impl.ts:124-126 | a token without a definition throws naming that token |
| BuilderImplProperties.NestedDefinitionIsNotSeen | lib/yargs/yargs-builder.impl.ts:53-56 | a definition nested under the Arguments node's `_children` is not found, so its token throws |
| BuilderImplProperties.CommandSucceedsIff | lib/yargs/yargs-builder.impl.ts:52-71 | a command with array children throws exactly when its directive cannot be split or a token is undefined |
| BuilderImplProperties.CommandErrorKinds | lib/yargs/yargs-builder.impl.ts:40-74 | a command throws only the positional and split errors |
| BuilderImplProperties.MissingPositionalThrowsAsWritten | lib/yargs/yargs-builder.impl.ts:55-56 | as written, a command without `positional` throws because `R.split` receives `undefined` |
| BuilderImplProperties.BareUsageWithoutPositional | lib/yargs/yargs-builder.impl.ts:58-71 | without `positional`, the command is registered under its bare name, and its builder callback receives the definition `name ` |
| BuilderImplProperties.UsageWithPositional | lib/yargs/yargs-builder.impl.ts:58-71 | with a directive, the positional registrations come first, then the command under `name` + " " + the concatenated markers |
| BuilderImplProperties.NonArrayChildrenRegisterNothing | lib/yargs/yargs-builder.impl.ts:52-73 | a command whose `_children` is not an array registers nothing and throws nothing |
| BuilderImplProperties.PickAgainstDefinition | lib/yargs/yargs-builder.impl.ts:174-180 | picking against `name markers` drops only the keys equal to the name or to the markers |
| BuilderImplProperties.PickAgainstDecoration | lib/yargs/yargs-builder.impl.ts:174-180 | picking against the definition built from a directive drops only the keys equal to the name or to the concatenated markers |
| BuilderImplProperties.DropKeysAppend | lib/yargs/yargs-builder.impl.ts:177-179 | `pickBy` over a concatenation picks from each part, one part after the other, so the kept properties keep their order |
| BuilderImplProperties.DropKeysOne | lib/yargs/yargs-builder.impl.ts:177-179 | a single property is kept exactly when its key is not listed |
| BuilderImplProperties.DropKeysNone | lib/yargs/yargs-builder.impl.ts:177-179 | when no key is listed, every property is kept, in order |
| BuilderImplProperties.CopyKeepsPositionalOptions | lib/yargs/yargs-builder.impl.ts:174-180 | the options of `copy <from>[to]` still contain `from` and `to` |
| BuilderImplProperties.OptionsOfObjectWithChildren | lib/yargs/yargs-builder.impl.ts:193-219 | an object `Arguments` node whose `_children` is an object gets exactly one `options` registration, carrying its non-positional properties |
| BuilderImplProperties.CopyOptionsRegistersEveryProperty | lib/yargs/yargs-builder.impl.ts:193-219 | for `copy <from>[to]` with `_children: {}`, the one `options` call carries every own property of the node: `_`, `_children`, `from` and `to` |
| BuilderImplProperties.CopyUsageTokens | lib/yargs/yargs-builder.impl.ts:176 | the usage string `copy <from>[to]` splits into the command name and the markers |
| BuilderImplProperties.CopyDropsNothing | lib/yargs/yargs-builder.impl.ts:177-179 | no key of the `copy` node with `_children` is the command name or the markers, so nothing is dropped |
| BuilderImplProperties.GroupsAccumulate | lib/yargs/yargs-builder.impl.ts:239-265 | the groups of a concatenation register each part's pairs, one part after the other |
| BuilderImplProperties.PairEventsAt | lib/yargs/yargs-builder.impl.ts:252-261 | one registration per pair, at the pair's position |
| BuilderImplProperties.PairEventsLength | lib/yargs/yargs-builder.impl.ts:252-261 | as many registrations as pairs |
| BuilderImplProperties.ConflictsGroupAsWritten | lib/yargs/yargs-builder.impl.ts:241-261 | as written, a Conflicts group of `n >= 3` refs with `m` distinct names registers `RowStart(m, n)` conflicts; the one at `PairIndex(i, j, n)` couples the `i`-th distinct ref with the `j`-th original ref |
| BuilderImplProperties.TwoRefsGiveOnePair | lib/utils/helpers.ts:13-15 | a group of exactly two refs registers their one pair, even when both have the same name |
| BuilderImplProperties.SameNameConflictsItself | lib/yargs/yargs-builder.impl.ts:250 | as written, two refs named `a` register `conflicts(a, a)`; with deduplicated pairs nothing is registered |
| BuilderImplProperties.DistinctRefsAgree | lib/yargs/yargs-builder.impl.ts:246-261 | when no two refs share a name, the as-written and the deduplicated registrations are the same |
| BuilderImplProperties.ConflictsGroup | lib/yargs/yargs-builder.impl.ts:241-261 | with deduplicated pairs, a Conflicts group with `m` distinct ref names registers `m(m-1)/2` conflicts; the one at `PairIndex(i, j, m)` couples the `i`-th and `j`-th names, which differ |
| BuilderImplProperties.OtherGroupsRegisterNothing | lib/yargs/yargs-builder.impl.ts:245 | a group of any other kind registers nothing, as written or deduplicated |
| Adapter.Clone | lib/yargs/yargs-adapter.class.ts:15 | `R.clone` rebuilds a value equal to its input |
| Adapter.YargsAdapter.Adapt | lib/yargs/yargs-adapter.class.ts:13-16 | `adapt` returns a value equal to the command |
| Adapter.YargsAdapter.AdaptIdempotent | lib/yargs/yargs-adapter.class.ts:15 | adapting twice is adapting once |
| Adapter.YargsAdapter.PrepareValidationGroups | lib/yargs/yargs-adapter.class.ts:20-29 | returns its input, whatever its `_children` |
| Builder.Values | lib/yargs/yargs-builder.class.ts:69-72 | the commands of an object collective are its property values in key order |
| Builder.YargsBuilder.constructor | lib/yargs/yargs-builder.class.ts:22-30 | a supplied adapter or implementation is kept, and a missing one is replaced by a fresh default |
| Builder.YargsBuilder.BuildCommand | lib/yargs/yargs-builder.class.ts:41-45 | adapts the command and builds it on the builder's instance: appends `BuildCommandTrace` |
| Builder.YargsBuilder.BuildAllCommands | lib/yargs/yargs-builder.class.ts:57-83 | appends `BuildAllTrace`, keeps the same instance, and returns it, or returns the error thrown |
| Builder.YargsBuilder.BuildEach | lib/yargs/yargs-builder.class.ts:63-75 | the reduce builds each command in turn on the accumulated instance and stops at the first throw |
| Builder.FoldCommandsPrefix | lib/yargs/yargs-builder.class.ts:63-75 | one more command is one more step of the reduce |
| Builder.ChainErrorPersists | lib/yargs/yargs-builder.class.ts:63-75 | once a command throws, later commands change nothing |
| BuilderProperties.ViewConcat | lib/yargs/yargs-builder.class.ts:59-60 | following a path in two parts is following the first, then the second |
| BuilderProperties.ViewNone | lib/yargs/yargs-builder.class.ts:60 | nothing is found below a missing step |
| BuilderProperties.CollectiveKey | lib/yargs/yargs-builder.class.ts:59-60 | a path without `/` names one property of the container |
| BuilderProperties.CollectiveNested | lib/yargs/yargs-builder.class.ts:59-60 | `first/rest` looks up `rest` inside the `first` property |
| BuilderProperties.NestedCollective | lib/yargs/yargs-builder.class.ts:59-60 | `cli/commands` finds the array at `container.cli.commands` |
| BuilderProperties.ChainAppend | lib/yargs/yargs-builder.class.ts:63-75 | chaining a concatenation chains the first part, then the second, unless the first threw |
| BuilderProperties.ChainSucceedsIff | lib/yargs/yargs-builder.class.ts:63-75 | a chain succeeds exactly when every step does |
| BuilderProperties.ChainErrorFrom | lib/yargs/yargs-builder.class.ts:63-75 | a chain's error is one of its steps' errors |
| BuilderProperties.ChainFirstFailure | lib/yargs/yargs-builder.class.ts:63-75 | the first step that throws decides the error; what came before stays registered |
| BuilderProperties.ChainInOrder | lib/yargs/yargs-builder.class.ts:63-75 | a chain that does not throw registers every step's events in order |
| BuilderProperties.FoldCommandsAppend | lib/yargs/yargs-builder.class.ts:63-67 | building a concatenation builds the first part, then the second |
| BuilderProperties.FoldCommandsSucceedsIff | lib/yargs/yargs-builder.class.ts:63-75 | building all commands succeeds exactly when every command builds |
| BuilderProperties.FoldCommandsFirstFailure | lib/yargs/yargs-builder.class.ts:63-75 | the first command that throws decides the error, and the earlier commands stay registered |
| BuilderProperties.FoldCommandsInOrder | lib/yargs/yargs-builder.class.ts:63-67 | without a throw, every command's registrations appear in collective order |
| BuilderProperties.FoldCommandsErrorKinds | lib/yargs/yargs-builder.class.ts:63-75 | the reduce throws only a command's own error |
| BuilderProperties.BuildAllNotFoundIff | lib/yargs/yargs-builder.class.ts:62-81 | "Couldn't find commands" exactly when the path leads nowhere or to a falsy value; nothing is registered then |
| BuilderProperties.BuildAllMalformedIff | lib/yargs/yargs-builder.class.ts:76-78 | "is malformed" exactly when the path leads to a truthy value that is neither array nor object |
| BuilderProperties.ObjectCollectiveInKeyOrder | lib/yargs/yargs-builder.class.ts:68-75 | an object collective builds its values in key order, and succeeds exactly when each of them builds |

## Left out

- The yargs library is not modelled. This covers parsing, help text and the
  dispatch of the fail callback. Each registration call is reduced to an event
  in a log.
- `go(instance)` (lib/yargs/yargs-builder.class.ts:93-96) is left out because
  it only triggers yargs parsing.
- The fail-handler closure of `buildCommand` is recorded only as the
  `FailHandler` event. The same goes for the `optionHandler` argument, which
  the facade passes into the `fail` parameter. The `handlers` argument of the
  facade's constructor is left out too: the implementation has no constructor
  to receive it.
- The constructor's `schema` argument to the default adapter is not modelled.
  The adapter does not read it.
- lib/yargs/yargs-builder-factory.ts, the webpack configurations and the test
  runner are not part of this model. The labels of lib/types.ts appear as
  constants in `BuilderImpl`.
- `null`, floating-point numbers and functions are not modelled as descriptor
  values, because a JSON descriptor of this system does not use them.
- Property reads on arrays and strings (indices, `length`) are not modelled.
  A read on anything but an object is `undefined`, both in `R.prop` and in
  the path walk of `R.lensPath`.
- Js.Get: keys inherited from `Object.prototype` (`toString`, `constructor`,
  …) are not modelled; `Get` sees own properties only. In the code,
  `argumentsMap[argument]` (lib/yargs/yargs-builder.impl.ts:116 and 122)
  finds `Object.prototype.toString` for the token `toString`, so it does not
  throw and adds `<toString>` to the usage. `R.view(R.lensPath(...))`
  (lib/yargs/yargs-builder.class.ts:59-60) finds the `Object` function for a
  path segment `constructor`, whose keys are `[]`, so the build succeeds with
  nothing registered. The model treats both as missing properties.
- An object with two properties of the same key is not modelled. JavaScript
  objects cannot have one. A lookup takes the first such property.
- `Adapter.YargsAdapter.Adapt` models only the default adapter. A custom
  `IYargsAdapter` handed to the constructor is taken to behave like it.
  `BuildCommand` and `BuildAllCommands` are stated for that adapter.
- The builder callback of `command` is run when the command is registered. Its
  registrations are recorded inside the `Command` event. The model does not
  capture when yargs actually invokes the callback.
- BuilderImpl.YargsBuilderImpl.PositionalDef: an absent `positional` is
  taken as a directive with no tokens, giving `name ` with nothing
  registered. As written, `R.split` of `undefined` throws (see Findings).
- BuilderImpl.YargsBuilderImpl.Command: follows the corrected path for a
  command without `positional`, registering it under its bare name where
  the code as written throws. `CommandTraceAsWritten` keeps the as-written
  outcome. `YargsBuilderImpl.BuildCommand`, `YargsBuilder.BuildCommand`,
  `YargsBuilder.BuildEach` and `YargsBuilder.BuildAllCommands` inherit this
  through `CommandTrace`.
- BuilderImplProperties.CommandSucceedsIff: is stated for the corrected
  path. It counts a command without `positional` as one that succeeds when
  nothing else throws. As written, such a command always throws.
- Helpers.UniquePairs: the default `get` (identity) and `equals` (`===`) of
  `uniquePairs` are not modelled. Its only caller in the builder
  (lib/yargs/yargs-builder.impl.ts:250) always passes both.
- `Builder.YargsBuilder.constructor` states the defaulting of the adapter and
  the implementation only. Which class the defaults come from is given by the
  types.

## Findings

| source | as written | input that shows it | evidently intended | confidence | as-written member | corrected member |
|---|---|---|---|---|---|---|
| lib/utils/helpers.ts:19 | the outer reduce runs over the deduplicated list, but each inner slice is taken from the original sequence at the deduplicated index | `uniquePairs([1, 1, 2])` gives `(1,1), (1,2), (2,2)` | the pairs of distinct elements, `(1,2)` alone | high, not executed | Helpers.DuplicateElementsGiveSelfPairs | Helpers.DedupedPairsAreDistinct |
| lib/utils/helpers.ts:13 | with exactly two elements, the pair is returned without deduplication | `uniquePairs([1, 1])` gives `(1,1)`; a Conflicts group of two refs named `a` registers `conflicts(a, a)` | no pair, as for any list whose elements are all equal | medium, not executed | Helpers.TwoEqualElementsGiveSelfPair | Helpers.DedupedPairsAreDistinct |
| lib/yargs/yargs-builder.impl.ts:114 | `positionalDef` splits `R.prop('positional')(command)` even when the command has no `positional` key, and `R.split` of `undefined` throws | a command `{ name: 'copy', _children: [] }` | the command registered under its bare name, as lines 58-62 provide for | high, not executed | BuilderImplProperties.MissingPositionalThrowsAsWritten | BuilderImplProperties.BareUsageWithoutPositional |

How the rest of the model uses these:

- `HandleValidator` registers the pairs that `Helpers.UniquePairs` returns
  as written, as the builder does.
  - `GroupRegistrationsDeduped` is the corrected registration, built on the
    pairs of `Helpers.UniquePairsDeduped`. `ConflictsGroup` is proved about it.
  - `DistinctRefsAgree` shows the two agree when no two refs share a name.
  - `SameNameConflictsItself` shows where they differ.
- `CommandTrace` and `YargsBuilderImpl.Command` split a missing directive into
  no tokens. `CommandTraceAsWritten` keeps the as-written version.
