# StepBundle map builder, in Dafny

A model of the core of a step-flow library. A multi-step form is described as a
**map**: named **steps** and **paths** that go from one step to another. The
model covers four pieces of code.

- **The map builder.** It collects step and path declarations and resolves the
  map-level options. On each request it builds the map:
  - it merges the map data with the request values;
  - it builds each step from its merged options and adds it;
  - it works out the first step;
  - it builds each path against the built steps and files the path under its
    source step.
- **The template merge.** This recursive walk renders every string of an
  option tree through the template engine. It keeps `|raw`-suffixed keys
  unrendered, moving each one to its stripped key, and leaves the `events` key
  alone.
- **The data flow.** It keeps the data recorded per step.
- **The configuration worker registry** and **the end path type**. The end
  path type has an options schema, and it binds a path to its source step.

The model is purely functional:

- A PHP array is an ordered map, `seq<(string, V)>`. Assigning a key replaces
  it in place, or appends it when it is new. `unset` removes the key.
- Every collaborator is a function value:
  - the template engine;
  - the step builder and the path builder;
  - the session, the security token and the flow recorder.

  The last three are request values held in `RequestContext`.
- Exceptions become `Result` errors.

The files:

- `outcomes.dfy`: `Option`, `Result`, the error kinds and their messages.
- `ordered_map.dfy`: PHP arrays as ordered maps.
- `values.dfy`: PHP values and type names.
- `options_resolver.dfy`: the part of the options resolver that the modelled
  code relies on.
- `merge.dfy` and `merge_properties.dfy`: the template merge, and what it does
  key by key.
- `map_builder.dfy` and `build_properties.dfy`: the builder and `build`, and
  what a build assembles.
- `data_flow.dfy`, `worker_registry.dfy` and `end_path_type.dfy`: the other
  three core classes.
- `scenarios.dfy`: a whole build proved on concrete declarations. Step `A` is
  followed by step `B`, and `B` reports `isFirst()`. One end path goes from `B`.
  The proof shows that `B` is the first step and holds exactly that path.

### Where the code departs from what a reader would expect

A reader would expect a step whose builder returns `null` to be skipped, and
the first step to be one of the steps actually added. The code does otherwise,
and the model follows the code:

- `buildSteps` runs the first-step test even for a skipped step
  (`Map/MapBuilder.php:269`).
- If no first step is set yet, the skipped step's name becomes the first-step
  name, although no step of that name exists. `BuildProperties.SkippedFirstStepStillNamedFirst`
  proves this.
- If a first step is already set, the code calls `isFirst()` on `null`, which
  is fatal. `BuildProperties.SkippedLaterStepIsFatal` proves this. The model
  reports it as the error `NullStepIsFirst`.

Two more points where the model departs from the code as written:

- `DataFlow::hasStep` has a stray closing parenthesis (`Flow/DataFlow.php:24`).
  It is modelled as the `isset` test it evidently means.
- `MapBuilder::getOptions` returns the undefined `$this->type`
  (`Map/MapBuilder.php:164`). It is not modelled. The resolved options are read
  through `hasOption` and `getOption`.

## Model

| member | source | states |
|---|---|---|
| OrderedMaps.Put | Map/MapBuilder.php:345 | Assigning `$a[$k] = $v` makes `$k` read `$v` and leaves every other key as it was. The key set grows by `$k`. Keys stay unique. An existing key keeps its position, and a new key is appended at the end. |
| OrderedMaps.Remove | Map/MapBuilder.php:346 | `unset($a[$k])` makes `$k` absent and leaves every other key as it was. Keys stay unique. Removing a missing key changes nothing. |
| OrderedMaps.RemoveCutsEntry | Map/MapBuilder.php:346 | On an array with unique keys, `unset($a[$k])` of a present key cuts out exactly that entry. Every other entry keeps its relative order. |
| OptionsResolver.Resolve | Map/MapBuilder.php:124-140 | Unknown keys fail first, and the error lists exactly those keys. Missing required keys fail next, listing exactly those keys. The call succeeds exactly when every allowed-values rule and every allowed-types rule holds of the defaults overridden by the input. Otherwise a broken allowed-values rule is reported before any type rule, and the option reported is the one of the first broken rule. On success the result has the input keys plus the default keys; supplied values win and defaults fill in the rest. |
| MapBuilder.ResolveOptions | Map/MapBuilder.php:122-141 | Map options resolve exactly when every key is one of the four map options, `browsing` is `linear` or `free`, and `display_step_in_url` is a bool. Any other key is an undefined-option error naming exactly the extra keys. A resolved array has exactly the four keys, keeps the supplied values, and otherwise uses the defaults `linear`, `null`, `null` and `false`. |
| MapBuilder.HasOption | Map/MapBuilder.php:170-173 | A predicate without a contract of its own. `MapBuilder.ResolvedOptionLookup` states it: on resolved options it holds exactly for the four map options. |
| MapBuilder.GetOption | Map/MapBuilder.php:178-181 | A function without a contract of its own. `MapBuilder.ResolvedOptionLookup` states what it returns on resolved options. |
| MapBuilder.ResolvedOptionLookup | Map/MapBuilder.php:170-181 | On resolved options, `hasOption` holds exactly for the four map options. `getOption` returns the supplied value, else the schema default, and the caller's default for any other name. |
| MapBuilder.NewBuilder | Map/MapBuilder.php:102-112 | Construction succeeds exactly when the options resolve. The new builder has no step or path declarations and stores the name, the data and the resolved options. |
| MapBuilder.AddStep | Map/MapBuilder.php:186-194 | The step name now holds the new type and options, and other names are unaffected. Names stay unique. Redeclaring a name keeps its position, and a new name goes last. Paths, name, data and options do not change. |
| MapBuilder.AddPath | Map/MapBuilder.php:199-207 | A path declaration is appended after all earlier ones, duplicates included. Nothing else changes. |
| MapBuilder.FlowVars | Map/MapBuilder.php:249-254 | The step variables bind `flow_data`, to the flow's data, exactly when the flow recorder returns a flow. They bind nothing else. |
| MapBuilder.BuildStep | Map/MapBuilder.php:257-263 | A step is built only from options whose merge succeeded. A failed merge fails the step with the merge's own error. `BuildProperties.StepsBuildSucceeded` and `BuildProperties.BuildAssembly` state what a successful build gets from it. |
| MapBuilder.GenerateFootprint | Map/MapBuilder.php:304-307 | A function without a contract of its own. `BuildProperties.FootprintOnlyFromDeclarations` states what it depends on. |
| MapBuilder.Shell | Map/MapBuilder.php:227-232 | A function without a contract of its own. The ensures of `MapBuilder.Build` state which fields a built map takes from the builder. |
| MapBuilder.AddBuiltStep | Map/MapBuilder.php:265-271 | A builder result reaching the map fails exactly when it is `null` and a first step is already set. A non-null step is stored under its name. The first-step name becomes this name when none is set or the step reports `isFirst()`, and otherwise stays. |
| MapBuilder.BuildStepsFrom | Map/MapBuilder.php:256-272 | Building steps changes only the steps and the first-step name. Only declared names appear. Once any declaration has been processed, a first-step name is set. |
| MapBuilder.BuildPathsFrom | Map/MapBuilder.php:283-296 | Building paths changes only the paths. When and how it succeeds is stated by `BuildProperties.PathsBuildSucceedsIff` and `BuildProperties.PathsIndexedBySource`. |
| MapBuilder.Build | Map/MapBuilder.php:224-239 | A built map keeps the builder's name and options. Its footprint comes from the name and the raw declarations. Its data is the strict merge of the map data. |
| TemplateMerge.IsRawKey | Map/MapBuilder.php:344 | A predicate without a contract of its own. `MergeProperties.RawKeyIff` states it. |
| TemplateMerge.StripRaw | Map/MapBuilder.php:344-345 | The stripped key followed by the four-character raw suffix is the original key. |
| TemplateMerge.MergeValue | Map/MapBuilder.php:338-380 | Numbers, booleans and `null` pass through unchanged. A merge that swallows failures, or a merge of an object, never fails. A string becomes its rendering; a failed render keeps the string when failures are swallowed and is rethrown otherwise. An array stays an array. An object keeps its class and its property order. |
| TemplateMerge.MergeArrayFrom | Map/MapBuilder.php:341-351 | The array loop never fails when failures are swallowed. |
| TemplateMerge.MergeEntry | Map/MapBuilder.php:342-350 | One pass of the loop never fails when failures are swallowed. |
| TemplateMerge.MergePropsFrom | Map/MapBuilder.php:353-367 | Merging an object's properties keeps exactly the property names, in order. |
| TemplateMerge.Merge | Map/MapBuilder.php:318-327 | A function without a contract of its own. `MergeProperties.MergeFailsIff`, `MergeProperties.MergeKeepsKeysUnique` and `MergeProperties.MergeIgnoresCallerReservedKeys` state it. |
| TemplateMerge.Bind | Map/MapBuilder.php:318-324 | The merge variables bind `session` to the session contents, and `user` to the token's user, or `null` without a token. They keep every other caller variable. |
| MergeProperties.MergeArrayMatchesReference | Map/MapBuilder.php:341-351 | Each key of a merged array agrees with a key-by-key reference. The last original entry that writes the key decides it. A raw-suffixed entry writes its value unrendered under the stripped key. A plain entry writes its merged value. A plain key that itself ends in the raw suffix is unset. A key that no entry writes keeps its original value. |
| MergeProperties.RawKeyStoredUnrendered | Map/MapBuilder.php:343-346 | A raw-suffixed entry's value, unrendered, ends up under the stripped key. The raw-suffixed key itself is gone, unless an entry carrying the suffix twice brings it back. |
| MergeProperties.EventsLeftUnresolved | Map/MapBuilder.php:347-348 | The value under `events` is left exactly as it was. |
| MergeProperties.PlainKeyMerged | Map/MapBuilder.php:348-350 | Any other key holds its value merged under the same failure mode, and that merge succeeded. |
| MergeProperties.LaterOfPlainAndRawWins | Map/MapBuilder.php:342-350 | With both `foo` and its raw-suffixed twin present, the later of the two in the original order decides the final `foo`. |
| MergeProperties.ArrayEntryMerged | Map/MapBuilder.php:348-349 | After a successful array merge, every entry that had to be merged merged successfully. |
| MergeProperties.ArrayErrorHasEntry | Map/MapBuilder.php:348-349 | A failed array merge failed with the error of one of its merged entries. |
| MergeProperties.RawKeyIff | Map/MapBuilder.php:344 | A key is raw exactly when it is some key followed by the four characters of the raw suffix. |
| MergeProperties.RawKeyMovesToEnd | Map/MapBuilder.php:341-351 | A raw-suffixed first entry followed by a plain scalar entry under another key merges to the plain entry followed by the raw value under the stripped key. The merged array is then not in declaration order. |
| MergeProperties.MergeArrayKeepsKeysUnique | Map/MapBuilder.php:341-351 | The array branch never produces a key twice. |
| MergeProperties.MergeKeepsKeysUnique | Map/MapBuilder.php:318-327 | Merging a well-formed option array gives a well-formed array. |
| MergeProperties.StrictMergeFailsIff | Map/MapBuilder.php:338-380 | A strict merge fails exactly when some string it reaches through arrays fails to render, and the error carries that string. Strings inside objects never make it fail, because properties are merged with failures swallowed. |
| MergeProperties.MergeFailsIff | Map/MapBuilder.php:318-327 | `merge` fails exactly when a string reached through arrays fails to render against the caller's variables plus `session` and `user`. |
| MergeProperties.MergeIgnoresCallerReservedKeys | Map/MapBuilder.php:320-324 | Caller variables named `session` or `user` are overridden and make no difference to the merge. |
| BuildProperties.StepsInDeclarationOrder | Map/MapBuilder.php:256-267 | Built steps are appended under their declared names, in declaration order. Skipped steps are left out. |
| BuildProperties.StepsBuildSucceeded | Map/MapBuilder.php:256-263 | In a successful build, every declaration's merge and step builder succeeded. |
| BuildProperties.NoLaterStepSkipped | Map/MapBuilder.php:265-271 | In a successful build, every declaration after the one that first set the first-step name produced a step. |
| BuildProperties.StepsBuildSucceedsIff | Map/MapBuilder.php:256-272 | A step build succeeds exactly when every declaration's merge and step builder succeed, and every declaration processed once a first-step name is set yields a step. |
| BuildProperties.FirstStepOnceSet | Map/MapBuilder.php:269-271 | Once a first step is set, the last later step that reports `isFirst()` replaces it; otherwise it stays. |
| BuildProperties.FirstStepRule | Map/MapBuilder.php:269-271 | The first step is the last declaration whose step reports `isFirst()`, and otherwise the first declaration, skipped or not. |
| BuildProperties.SkippedLaterStepIsFatal | Map/MapBuilder.php:265-271 | A skipped declaration that comes after the first-step name is set makes the build fail at that declaration, with an error naming it, provided every earlier declaration got through. This includes a skipped first declaration that set the name. |
| BuildProperties.SkippedFirstStepStillNamedFirst | Map/MapBuilder.php:265-271 | A skipped first declaration is still named the first step when no step reports `isFirst()`, yet it is not among the built steps. |
| BuildProperties.PathsIndexedBySource | Map/MapBuilder.php:283-296 | Each path is filed under its source step's name, after the paths already there, in declaration order. Paths the builder skips are left out. |
| BuildProperties.PathsBuildSucceedsIff | Map/MapBuilder.php:283-296 | Building the paths succeeds exactly when no path builder call fails and every path built has a source step. A `null` source is fatal, because `getName()` is then called on `null`. |
| BuildProperties.StepsAssembly | Map/MapBuilder.php:247-273 | A step build on a fresh map yields exactly the built steps in declaration order. Each declared name looks up its own builder result. The first step is determined by the first-step rule, and no first step is set without declarations. |
| BuildProperties.BuildAssembly | Map/MapBuilder.php:224-239 | A successful build has steps built from options merged with `flow_data`, and the first step determined by the first-step rule. Each source step holds exactly the paths built against all built steps that name it. Every path declaration's builder succeeded and gave a path with a source step, or no path. |
| BuildProperties.BuildSucceedsIff | Map/MapBuilder.php:224-297 | A build succeeds exactly when the map data merges, every step declaration succeeds with none after the first skipped, and every path declaration succeeds against the steps built. |
| BuildProperties.BuildFailsOnPathIff | Map/MapBuilder.php:224-239 | Once the data and the steps are built, the build fails exactly when some path builder call fails or yields a path without a source step. |
| BuildProperties.FootprintIndependentOfRequest | Map/MapBuilder.php:227-229 | Builds of one builder under different requests and collaborators share one footprint. |
| BuildProperties.FootprintOnlyFromDeclarations | Map/MapBuilder.php:304-307 | Two footprints are equal exactly when the name, the raw step declarations and the raw path declarations are equal. Data and options do not enter. |
| DataFlow.HasStep | Flow/DataFlow.php:22-25 | A predicate without a contract of its own. `DataFlow.GetStep` succeeds exactly when it holds, and `DataFlow.SetStep` and `DataFlow.FreshFlowIsEmpty` state how it changes. |
| DataFlow.GetStep | Flow/DataFlow.php:30-40 | Reading a step succeeds exactly when the step is recorded; otherwise the error names the step. |
| DataFlow.SetStep | Flow/DataFlow.php:45-48 | After recording a step, that step is present, and the presence of every other step is unchanged. |
| DataFlow.SetThenGet | Flow/DataFlow.php:22-48 | Reading a step just recorded returns its data, and other steps read as before. |
| DataFlow.SetStepOverwrites | Flow/DataFlow.php:45-48 | Recording a step twice keeps only the second data. |
| DataFlow.FreshFlowIsEmpty | Flow/DataFlow.php:17 | A new flow has no step, and every read fails. |
| DataFlow.MissingStepMessageNamesStep | Flow/DataFlow.php:33-36 | The missing-step message contains the step name. |
| WorkerRegistry.Empty | Configuration/Worker/ConfigurationWorkerRegistry.php:12 | A new registry holds no worker. |
| WorkerRegistry.SetWorker | Configuration/Worker/ConfigurationWorkerRegistry.php:17-20 | Registering a worker adds its alias and no other alias. |
| WorkerRegistry.GetWorker | Configuration/Worker/ConfigurationWorkerRegistry.php:25-32 | A lookup succeeds exactly when the alias is registered; otherwise the error names the alias. |
| WorkerRegistry.SetThenGet | Configuration/Worker/ConfigurationWorkerRegistry.php:17-32 | Looking up an alias just registered returns its worker, and other aliases resolve as before. |
| WorkerRegistry.SetWorkerReplaces | Configuration/Worker/ConfigurationWorkerRegistry.php:17-20 | Registering an alias again replaces its worker. |
| WorkerRegistry.EmptyRegistryFails | Configuration/Worker/ConfigurationWorkerRegistry.php:12 | On a new registry every lookup fails. |
| WorkerRegistry.MissingWorkerMessageNamesAlias | Configuration/Worker/ConfigurationWorkerRegistry.php:28 | The missing-worker message contains the alias. |
| EndPathType.ResolveEndOptions | Path/Type/EndPathType.php:19-30 | End path options resolve exactly when only `source`, `label` and `storageProvider` are given, `source` and `storageProvider` are present, and every value is a string. A missing `source` or `storageProvider` is reported by name. The resolved options have all three keys, keep the supplied values, and `label` defaults to "end". |
| EndPathType.BuildPath | Path/Type/EndPathType.php:35-38 | Binding succeeds exactly when the map has a step named by `source`, and the path's source becomes that step. Otherwise the error names the missing step. Type and options are kept. |
| EndPathType.OnlySourceBinds | Path/Type/EndPathType.php:35-38 | Only `source` decides the binding: `label` and `storageProvider` do not. |
| Scenarios.DeclaredByCalls | Map/MapBuilder.php:186-207 | Two `addStep` calls and one `addPath` call declare steps `A` and `B`, in that order, and one end path. |
| Scenarios.DoneOptionsResolve | Path/Type/EndPathType.php:19-30 | The options `{source: B, label: done, storageProvider: memory}` resolve to themselves. |
| Scenarios.LastIsFirstScenario | Map/MapBuilder.php:224-297 | With `A` then `B` declared, `B` reporting `isFirst()`, and one end path from `B` labelled "done", the build succeeds. `B` is the first step and has exactly that one path. |

## Left out

- Template rendering is a function parameter that returns the rendering, or
  nothing when the engine raises. The template language itself is not part of
  this model.
- The step builder and the path builder are function parameters, and so are the
  step types behind them. `HtmlStepType` is not part of this model.
  `Scenarios.BuildHtmlStep` is a stand-in named after it: it reports
  `isFirst()` only for the step named `B`, and it uses none of the defaults of
  `HtmlStepType`. Likewise `Scenarios.BuildEndPath` stands in for the path
  builder: it resolves the end path options, then binds the path to its
  source step with `EndPathType.BuildPath`.
- The session, the security token and the flow recorder are request values in
  `RequestContext`. The flow is taken as given and not recomputed from the map
  under construction.
- The footprint is the triple it is computed from: name, raw step declarations
  and raw path declarations. The `md5` digest and `json_encode` are not
  modelled. A digest collision could only make more footprints equal.
- Object merging is modelled by value: properties are merged in order with
  failures swallowed. Mutation through shared object handles and static
  properties is not modelled. In PHP the merge writes each rendered property
  back into the object itself.
- `BuildProperties.BuildAssembly`: assumes that the resolved
  `first_step_name` option (default `null`, `Map/MapBuilder.php:128`) does not
  seed the new map's `getFirstStepName()`. The option is passed to the `Map`
  constructor (line 231), and nothing in the builder reads it. If `Map` does
  seed the name from it, two statements about a builder with that option set
  no longer hold:
  - the first-step clauses of `BuildProperties.BuildAssembly`;
  - `BuildProperties.BuildSucceedsIff`, under which a skipped first
    declaration would be fatal too.

  `BuildProperties.FirstStepOnceSet` and `BuildProperties.StepsBuildSucceedsIff`
  cover a step build that starts from a set first-step name.
- `BuildProperties.FootprintIndependentOfRequest`: holds for the model, where
  objects are values. In PHP the object branch of the merge mutates objects
  reached through the declared step options. A later build would then see
  options changed by an earlier one, and the footprint could differ between
  builds. The model does not state this.
- Floating-point values are `real`. No float or resource operation matters to
  the modelled code.
- Array keys are strings. PHP turns decimal-string keys into integers, and the
  model treats such a key as its decimal string, so key identity is the same.
  For the key `|raw` itself, the stripped key is the empty string, as in PHP 8.
  Older PHP returns `false` from `substr` there.
- The `Map` class is not part of this model. The model assumes:
  - a new map has no first step (see the line on `BuildProperties.BuildAssembly`
    below);
  - `addStep` assigns by name;
  - `addPath` appends under the source name;
  - `getStep` fails on an unknown name.
- `getOptions` is not modelled, because it returns an undefined property.
- `MapBuilderFactory` and the builder interfaces are callers and types, not
  behaviour. They are not modelled.
- The options resolver is modelled only as far as these schemas use it:
  - required keys, defaults, allowed values and allowed types;
  - strict membership for allowed values;
  - its checks in this order: undefined, missing, value, type.

  Normalizers and lazy defaults are not modelled.
- `MapBuilder.BuildPathsFrom`: only the frame is stated as a contract. The
  filing of each path under its source is the lemma
  `BuildProperties.PathsIndexedBySource`. When it fails is the lemma
  `BuildProperties.PathsBuildSucceedsIff`.
- `MergeProperties.MergeArrayMatchesReference`: states the merged array key by
  key only. The order of its entries is not stated in general. A raw value
  stored under a new stripped key goes to the end, so the order differs from
  the declaration order. `MergeProperties.RawKeyMovesToEnd` shows one such
  case.
- `Outcomes.Error.Message`: only the two messages the modelled code spells out
  are modelled. The options resolver's messages and PHP's own errors are not.
- `TemplateMerge.MergeArrayFrom`: only "never fails when swallowing failures"
  is stated as a contract. Key by key, the array loop is described by
  `MergeProperties.MergeArrayMatchesReference` and the lemmas after it.
