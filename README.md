# Mapping statement engine

This project models the statement-execution engine of the field-mapping language, found in
`src/mapping/mod.rs`. A compiled mapping program is an ordered list of statements. They are
applied one after another to a single mutable log event. An event is a tree of string-keyed
maps with opaque leaf values, and paths of field names address its nodes.

The statements are:

- assignment;
- deletion;
- `only_fields` projection;
- `if`/`else`;
- no-op;
- `merge`;
- `log`.

`Mapping::execute` runs the statements in order. It stops at the first one that fails and
prefixes that statement's error with its index. Statements that already ran keep their
effects: nothing is rolled back.

The modules, one file each:

- `wrappers.dfy` (`Wrappers`): the `Option` and `Result` types. An error is a `string`, as in
  the source's `Result<T> = Result<T, String>`.
- `events.dfy` (`Events`): the event record. It defines `Value` (`Boolean`, `Map` and an
  opaque `Other` leaf), paths, and the pure tree operations `Get`, `Inserted` and `Removed`
  (the latter with or without compaction). It also defines the recursive leaf enumeration
  `LeafPaths`. The `Event` class holds the fields that the statements mutate in place.
- `merge.dfy` (`Merge`): `merge_maps`. `Merged` is the recursive merge as a function.
  `MergeMaps` is the source's loop over the second map, proved equal to `Merged`.
- `log_level.dfy` (`LogLevels`): `LogLevel` and `LogLevel::try_from`.
- `mapping.dfy` (`Mapping`): the statement datatype.
  - `Statement.Apply` applies one statement in place, dispatching to one method per
    variant. `Mapping.Execute` is the fail-fast loop.
  - Each method is proved against the specification functions `Step` (one statement) and
    `Run` (a statement list). A method's postcondition gives the result, the new fields and
    the log lines emitted.
  - The `Sink` class stands for the process-wide logger.
- `mapping_properties.dfy` (`MappingProperties`): what the engine promises, stated over
  `Step` and `Run`.
- `scenarios.dfy` (`MappingScenarios`): every case of the engine's unit tests `check_mapping`
  and `check_merge`, stated as facts about `Run`. The path `foo bar\.baz.buz` is written
  directly as its two segments, because path parsing is not part of this model.

Points where the model follows the code rather than its comments:

- The doc comment on `merge_maps` (`src/mapping/mod.rs:169-174`) describes `deep` the wrong
  way round. The code (`src/mapping/mod.rs:186-189`) recurses only when `deep` is true, and
  the model does the same. The merge tests at `src/mapping/mod.rs:635-749` agree with the
  code.
- `OnlyFields` removes the uncovered keys with compaction (`src/mapping/mod.rs:91`), so it
  prunes ancestors that become empty. `Deletion` removes without compaction
  (`src/mapping/mod.rs:60`). The model keeps this difference. In the test at
  `src/mapping/mod.rs:496-552`, `and` disappears once `and.remove_this` is removed.
- The key filter of `OnlyFields` (`src/mapping/mod.rs:84-86`) compares with `==`. For
  `nested.stuff.here` to survive a keep-path `nested` (test at
  `src/mapping/mod.rs:496-552`), the comparison must be a covering relation. The model
  defines that relation (`Mapping.Covered`) as "equal to or a proper prefix of".
- `keys(true)` is modelled as the enumeration of leaf paths: non-map values and empty maps.
  If intermediate map paths were enumerated as well, no keep-path would cover `bar` or
  `bar.baz`, since `bar.baz.buz` is longer than both. Removing `bar` would then take
  `bar.baz.buz` with it, but that same test expects `bar.baz.buz` to stay.

## Model

| member | source | states |
|---|---|---|
| Events.Event.GetMut | src/mapping/mod.rs:230-233 | the lookup walks the path: a value is found only when every proper prefix of the path holds a map, and nothing is found when the first segment or any prefix is missing |
| Events.Event.Insert | src/mapping/mod.rs:34 | the new fields are the old ones with the value written at the path |
| Events.Event.Remove | src/mapping/mod.rs:59-61 | the new fields are the old ones with the path removed, pruning emptied ancestors only when `compact` is set |
| Events.Event.Keys | src/mapping/mod.rs:82-84 | the recursive enumeration returns exactly the leaf paths of the record |
| Events.InsertThenGet | src/mapping/mod.rs:34 | after an insert, reading the path gives the inserted value |
| Events.InsertElsewhere | src/mapping/mod.rs:34 | an insert leaves alone every path that neither contains nor lies inside the written path |
| Events.RemoveAbsent | src/mapping/mod.rs:58-63 | removing a missing path, with or without compaction, leaves the record unchanged |
| Events.RemoveThenGet | src/mapping/mod.rs:58-63 | after a removal the path is absent |
| Events.RemoveKeepsAbsent | src/mapping/mod.rs:58-63 | a removal never makes any path present |
| Events.RemoveElsewhere | src/mapping/mod.rs:60 | without compaction, a removal leaves alone every path unrelated to the removed one |
| Events.RemoveKeepsAncestors | src/mapping/mod.rs:60 | without compaction, every ancestor of the removed path stays present |
| Events.RemoveLeafCompact | src/mapping/mod.rs:91 | removing a leaf with compaction removes exactly that leaf; every other leaf keeps its place and value |
| Events.RemoveEachLeaves | src/mapping/mod.rs:90-92 | removing a set of leaves with compaction, in any order, leaves exactly the other leaves with their values |
| Events.LeafPathsExact | src/mapping/mod.rs:82-84 | a path is enumerated if and only if it addresses a leaf |
| Events.LeavesDetermine | src/mapping/mod.rs:80-95 | two records with the same leaf paths and the same leaf values are equal |
| Merge.MergeMaps | src/mapping/mod.rs:181-196 | the loop over the second map, updating the first in place, yields exactly the recursive merge `Merged` |
| Merge.MergedKeys | src/mapping/mod.rs:185-195 | the merged keys are the keys of both maps, and keys only in the first map keep their values |
| Merge.ShallowMergeIsUnion | src/mapping/mod.rs:186-193 | with `deep` false, every key of the second map takes that map's value, nested maps included (map union) |
| Merge.DeepMergeEntries | src/mapping/mod.rs:186-193 | with `deep` true, a key holding a map on both sides gets the recursive merge; every other key of the second map takes its value |
| Merge.DeepMergeKeepsSourceValues | src/mapping/mod.rs:186-193 | with `deep` true, every non-map value of the second map, at any depth, is in the result at the same path |
| Merge.DeepMergeKeepsTargetValues | src/mapping/mod.rs:186-193 | with `deep` true, a value of the first map at a path the second map does not contain survives, provided every proper prefix of that path is either absent from the second map or holds a map there |
| Merge.MergeIdentities | src/mapping/mod.rs:181-196 | merging a map into itself, or merging in an empty map, changes nothing, for either `deep` |
| LogLevels.TryFrom | src/mapping/mod.rs:261-269 | succeeds exactly on `trace`, `debug`, `info`, `warn` and `error`, returning the level of that name; otherwise fails with `invalid log level` |
| LogLevels.NameRoundTrip | src/mapping/mod.rs:261-269 | each level's name parses back to that level |
| Mapping.Statement.Apply | src/mapping/mod.rs:136-139 | applying any statement in place, no-op included, gives the result, new fields and log lines of `Step` |
| Mapping.ApplyAssignment | src/mapping/mod.rs:31-39 | evaluates the expression and writes the concrete value at the path; a non-value result fails with `assignment must be from a value`; an evaluation error propagates |
| Mapping.ApplyDeletion | src/mapping/mod.rs:58-63 | removes each path in order without compaction, and never fails |
| Mapping.ApplyOnlyFields | src/mapping/mod.rs:80-95 | enumerates the leaf paths, then removes with compaction each one that no keep-path covers; the result is the projection `Project` |
| Mapping.ApplyIf | src/mapping/mod.rs:122-128 | runs the true branch on `true` and the false branch on `false`; any other value fails with `query returned non-boolean value` |
| Mapping.ApplyMerge | src/mapping/mod.rs:220-243 | evaluates the source, then `deep`, then looks up the destination, then merges when both are maps, failing at the first check that does not hold |
| Mapping.ApplyLog | src/mapping/mod.rs:286-304 | emits the concrete message at the statement's level, `info` by default, and never touches the fields; a non-value fails with `Can only log Value parameters` |
| Mapping.Sink.Emit | src/mapping/mod.rs:295-301 | appends one line, with its level and message, to the emitted lines |
| Mapping.Mapping.Execute | src/mapping/mod.rs:154-161 | the fail-fast loop gives the result, fields and log lines of `Run`: statements run in order, and the first failure stops the run with its index in the message |
| Mapping.RunStopsAtError | src/mapping/mod.rs:155-158 | once a run has failed, no further statement has any effect |
| MappingProperties.FailedStepChangesNothing | src/mapping/mod.rs:122-127 | a statement that fails leaves the fields unchanged and logs nothing, so a failed run keeps only the earlier statements' effects |
| MappingProperties.AssignmentWrites | src/mapping/mod.rs:31-38 | a concrete value ends up at the path, and unrelated paths are unchanged; a non-value result fails with the exact message and changes nothing |
| MappingProperties.DeletionRemovesPaths | src/mapping/mod.rs:58-63 | a deletion succeeds, and every deleted path is absent afterwards |
| MappingProperties.DeletionOfAbsentPaths | src/mapping/mod.rs:58-63 | deleting only missing paths succeeds and changes nothing |
| MappingProperties.DeletionIsLocal | src/mapping/mod.rs:58-63 | paths unrelated to every deleted path keep their values, and ancestors of deleted paths stay present |
| MappingProperties.OnlyFieldsProjects | src/mapping/mod.rs:80-95 | a projection succeeds; afterwards the leaves are exactly the old leaves that some keep-path equals or prefixes, with their old values |
| MappingProperties.OnlyFieldsIgnoresAbsentKeep | src/mapping/mod.rs:545-550 | a keep-path missing from the record, such as `doesnt_exist.anyway`, changes neither the result nor the record |
| MappingProperties.IfSelectsBranch | src/mapping/mod.rs:122-128 | `true` runs exactly the true branch and `false` exactly the false branch; any other value fails with `query returned non-boolean value`, running no branch and changing nothing |
| MappingProperties.MergeFnChecks | src/mapping/mod.rs:220-243 | the merge checks in order: source error, non-boolean `deep`, missing destination (`parameter <to> passed to merge is not found`), non-map operand; each failure changes nothing, and an absent `deep` means false |
| MappingProperties.MergeFnMerges | src/mapping/mod.rs:234-238 | when both operands are maps, the destination holds `Merged` of the two and paths unrelated to the destination are unchanged |
| MappingProperties.LogFnKeepsFields | src/mapping/mod.rs:286-304 | a log statement never changes the fields; it succeeds exactly on a concrete message, logging it once at its level or `info` |
| MappingProperties.RunSucceedsIff | src/mapping/mod.rs:154-161 | a mapping succeeds if and only if each statement succeeds on the fields left by the statements before it |
| MappingProperties.RunFirstFailure | src/mapping/mod.rs:155-158 | when statement `i` is the first to fail with `e`, the run fails with `failed to apply mapping i: e`, keeping the fields and log of statements `0..i-1` |
| MappingProperties.RunFailureIndex | src/mapping/mod.rs:155-158 | every failed run names a statement that is the first to fail, and wraps that statement's own error |
| MappingProperties.RunAppend | src/mapping/mod.rs:154-161 | running `first + second` after a successful `first` is running `first`, then `second` on its result: same success, fields and log |
| MappingScenarios.ProjectionIs | src/mapping/mod.rs:80-95 | `only_fields` produces a given record whenever that record's leaves are exactly the covered leaves of the input, with the same values |
| MappingScenarios.AssignField | src/mapping/mod.rs:323-342 | assigning a literal to `foo` adds the field |
| MappingScenarios.AssignThroughEscapedPath | src/mapping/mod.rs:343-363 | assigning through a missing parent `foo bar.baz` creates that parent map holding `buz` |
| MappingScenarios.DeleteField | src/mapping/mod.rs:364-380 | deleting `foo` leaves only `message` |
| MappingScenarios.AssignThenDelete | src/mapping/mod.rs:381-406 | assigning `foo` and then deleting `bar` gives the expected record |
| MappingScenarios.IfTakesTrueBranch | src/mapping/mod.rs:407-440 | with `bar == "baz"`, the true branch writes `foo` |
| MappingScenarios.IfTakesFalseBranch | src/mapping/mod.rs:441-468 | with `bar == "buz"`, the false branch deletes `bar` |
| MappingScenarios.IfOnNonBoolean | src/mapping/mod.rs:469-495 | a non-boolean condition fails with `failed to apply mapping 0: query returned non-boolean value`, and the record is unchanged |
| MappingScenarios.OnlyFieldsKeepsCovered | src/mapping/mod.rs:496-552 | `only_fields(.bar.baz.buz, .bev, .doesnt_exist.anyway, .nested)` gives the expected record, with `and` pruned |
| MappingScenarios.MergeIntoNonMap | src/mapping/mod.rs:564-598 | merging into a boolean fails with `failed to apply mapping 0: parameters passed to merge are non-map values`, and the record is unchanged |
| MappingScenarios.MergeAddsKeys | src/mapping/mod.rs:599-634 | a shallow merge adds the source's keys to the destination |
| MappingScenarios.ShallowMergeReplacesChild | src/mapping/mod.rs:635-691 | a shallow merge replaces the nested `child` map wholesale |
| MappingScenarios.DeepMergeMergesChild | src/mapping/mod.rs:692-749 | a deep merge merges the nested `child` maps |

## Left out

- The logging macros `trace!` … `error!` (`src/mapping/mod.rs:295-301`) are process-wide I/O.
  `Sink` records each line as its level and message value.
- The conversion of the message to bytes and its lossy UTF-8 decoding
  (`src/mapping/mod.rs:291-292`) are library code; messages stay `Value`s.
- The `query` and `parser` submodules (`Arithmetic`, `Literal`, `QueryPath`) are not part of
  this model. An expression is an arbitrary total function from the fields to
  `Result<QueryValue>`. The scenarios use three stand-ins: a literal, a top-level field read
  and an equality test.
- The internals of `Event` and `LookupBuf` (`insert`, `get_mut`, `remove`, `keys(true)`) are
  not part of this model; they are specified over the tree-of-maps model instead. An insert
  through a non-map intermediate value replaces that value with a map. The source's own
  behaviour in that case cannot be seen.
- Path segments are field names only. Array indices and array values are not modelled; they
  count as opaque `Other` leaves.
- The iteration order of `BTreeMap` in `merge_maps` is not modelled: `MergeMaps` picks the
  next key of the second map arbitrarily. Keys are distinct, so the order does not affect
  the result.
- `Mapping.ApplyOnlyFields` removes the collected keys in an arbitrary order, not in the
  enumeration's order. The result does not depend on the order (`Events.RemoveEachLeaves`).
- `Mapping.NotFound`: the `Display` rendering of a `LookupBuf` is modelled as the segments
  joined by dots, without quoting or escaping.
- `Merge.MergeMaps` returns the merged map rather than mutating `map1` through `&mut`.
  `Mapping.ApplyMerge` then writes it back at the destination path.
- The event timestamp is not part of the scenario records. Most tests remove it from both
  records. In the `only_fields` case (`src/mapping/mod.rs:496-552`) it stays in the input,
  where it is an uncovered leaf that the projection removes. The model's input omits that
  leaf.
- Recursion depth and stack exhaustion (`src/mapping/mod.rs:176-180`) are not modelled.
- Trait-object dispatch and the `Send` and `Debug` bounds are replaced by the closed
  `Statement` datatype.
