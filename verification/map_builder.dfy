/** The map builder: it accumulates step and path declarations, resolves the
    map-level options, and builds a map per request by merging the map data,
    building the steps (fixing the first step) and then building the paths. */
module MapBuilder {
  import opened Outcomes
  import opened OrderedMaps
  import opened Values
  import opened TemplateMerge
  import OptionsResolver

  /** A declared step: its type alias and raw (unmerged) options. Steps are
      declared under their names. */
  datatype StepDecl = StepDecl(typeAlias: string, options: OrderedMap<Value>)

  /** A declared path: its type alias and raw options. */
  datatype PathDecl = PathDecl(typeAlias: string, options: OrderedMap<Value>)

  /** A built step; `isFirst` is what its `isFirst()` reports. */
  datatype Step = Step(name: string, typeAlias: string, options: OrderedMap<Value>, isFirst: bool)

  /** A built path and the step it starts from (`null` until a path type binds it). */
  datatype Path = Path(typeAlias: string, options: map<string, Value>, source: Option<Step>)

  /** What the footprint digests: the map name and the raw declarations. The
      digest itself is not modelled, so two footprints are equal exactly when
      these inputs are. */
  datatype Footprint = Footprint(name: string, steps: OrderedMap<StepDecl>, paths: seq<PathDecl>)

  /** The builder's state. */
  datatype Builder = Builder(
    name: string,
    data: OrderedMap<Value>,
    options: map<string, Value>,
    steps: OrderedMap<StepDecl>,
    paths: seq<PathDecl>)

  /** A built map: steps by name, paths by the name of their source step. */
  datatype Map = Map(
    name: string,
    footprint: Footprint,
    data: OrderedMap<Value>,
    options: map<string, Value>,
    steps: OrderedMap<Step>,
    paths: OrderedMap<seq<Path>>,
    firstStepName: Option<string>)

  /** The step builder: a step, `None` to skip the step, or an error (an
      unknown type alias, say). */
  type StepOracle = (string, string, OrderedMap<Value>) -> Result<Option<Step>>

  /** The path builder, given a path's type alias, raw options and the built steps. */
  type PathOracle = (string, OrderedMap<Value>, OrderedMap<Step>) -> Result<Option<Path>>

  datatype Collaborators = Collaborators(render: Renderer, stepBuilder: StepOracle, pathBuilder: PathOracle)

  const BrowsingKey: string := "browsing"
  const FirstStepNameKey: string := "first_step_name"
  const FinalDestinationKey: string := "final_destination"
  const DisplayStepInUrlKey: string := "display_step_in_url"
  const FlowDataKey: string := "flow_data"

  const MapOptionKeys: set<string> := {BrowsingKey, FirstStepNameKey, FinalDestinationKey, DisplayStepInUrlKey}

  /** The map-level options schema. */
  const MapOptionsSchema: OptionsResolver.Schema :=
    OptionsResolver.Schema(
      {},
      map[BrowsingKey := Str("linear"), FirstStepNameKey := Null,
          FinalDestinationKey := Null, DisplayStepInUrlKey := Bool(false)],
      [(BrowsingKey, [Str("linear"), Str("free")])],
      [(DisplayStepInUrlKey, {BoolType})])

  /** `resolveOptions`. */
  function ResolveOptions(options: map<string, Value>): (r: Result<map<string, Value>>)
    ensures r.Ok? <==>
              && options.Keys <= MapOptionKeys
              && (BrowsingKey in options ==> options[BrowsingKey] in {Str("linear"), Str("free")})
              && (DisplayStepInUrlKey in options ==> options[DisplayStepInUrlKey].Bool?)
    ensures !(options.Keys <= MapOptionKeys) ==> r == Err(UndefinedOptions(options.Keys - MapOptionKeys))
    ensures r.Ok? ==> r.value.Keys == MapOptionKeys
    ensures r.Ok? ==> forall k :: k in options ==> r.value[k] == options[k]
    ensures r.Ok? && BrowsingKey !in options ==> r.value[BrowsingKey] == Str("linear")
    ensures r.Ok? && FirstStepNameKey !in options ==> r.value[FirstStepNameKey] == Null
    ensures r.Ok? && FinalDestinationKey !in options ==> r.value[FinalDestinationKey] == Null
    ensures r.Ok? && DisplayStepInUrlKey !in options ==> r.value[DisplayStepInUrlKey] == Bool(false)
  {
    var r := OptionsResolver.Resolve(MapOptionsSchema, options);
    assert MapOptionsSchema.Known() == MapOptionKeys;
    assert OptionsResolver.TypeAllowed(MapOptionsSchema.defaults + options, (DisplayStepInUrlKey, {BoolType}))
           <==> (MapOptionsSchema.defaults + options)[DisplayStepInUrlKey].Bool? by {
      if (MapOptionsSchema.defaults + options)[DisplayStepInUrlKey].Bool? {
        assert HasType((MapOptionsSchema.defaults + options)[DisplayStepInUrlKey], BoolType);
      }
    }
    r
  }

  /** `hasOption`. */
  predicate HasOption(options: map<string, Value>, name: string)
  {
    name in options
  }

  /** `getOption`: the stored value, or the caller's default. */
  function GetOption(options: map<string, Value>, name: string, default: Value): Value
  {
    if HasOption(options, name) then options[name] else default
  }

  /** After resolution every map option is present, holding the supplied
      value or else its default; any other name yields the caller's default. */
  lemma ResolvedOptionLookup(input: map<string, Value>, name: string, default: Value)
    requires ResolveOptions(input).Ok?
    ensures HasOption(ResolveOptions(input).value, name) <==> name in MapOptionKeys
    ensures name !in MapOptionKeys ==> GetOption(ResolveOptions(input).value, name, default) == default
    ensures name in input ==> GetOption(ResolveOptions(input).value, name, default) == input[name]
    ensures name !in input && name in MapOptionKeys ==>
              GetOption(ResolveOptions(input).value, name, default) == MapOptionsSchema.defaults[name]
  {
  }

  /** The constructor: no declarations yet, options resolved. */
  function NewBuilder(name: string, data: OrderedMap<Value>, options: map<string, Value>): (r: Result<Builder>)
    ensures r.Ok? <==> ResolveOptions(options).Ok?
    ensures r.Ok? ==> r.value.steps == [] && r.value.paths == []
    ensures r.Ok? ==> r.value.name == name && r.value.data == data && r.value.options == ResolveOptions(options).value
  {
    var resolved :- ResolveOptions(options);
    Ok(Builder(name, data, resolved, [], []))
  }

  /** `addStep`: declarations are keyed by name; redeclaring a name replaces
      its type and options where it stands. */
  function AddStep(b: Builder, name: string, typeAlias: string, options: OrderedMap<Value>): (r: Builder)
    ensures Lookup(r.steps, name) == Some(StepDecl(typeAlias, options))
    ensures forall n :: n != name ==> Lookup(r.steps, n) == Lookup(b.steps, n)
    ensures UniqueKeys(b.steps) ==> UniqueKeys(r.steps)
    ensures name in Keys(b.steps) ==> KeyOrder(r.steps) == KeyOrder(b.steps)
    ensures name !in Keys(b.steps) ==> KeyOrder(r.steps) == KeyOrder(b.steps) + [name]
    ensures r.paths == b.paths && r.name == b.name && r.data == b.data && r.options == b.options
  {
    var steps := Put(b.steps, name, StepDecl(typeAlias, options));
    assert name !in Keys(b.steps) ==> KeyOrder(steps) == KeyOrder(b.steps) + [name] by {
      if name !in Keys(b.steps) {
        KeyOrderAppend(b.steps, (name, StepDecl(typeAlias, options)));
      }
    }
    b.(steps := steps)
  }

  lemma {:induction false} KeyOrderAppend<V>(m: OrderedMap<V>, e: (string, V))
    ensures KeyOrder(m + [e]) == KeyOrder(m) + [e.0]
  {
    if m != [] {
      assert (m + [e])[1..] == m[1..] + [e];
      KeyOrderAppend(m[1..], e);
    }
  }

  /** `addPath`: declarations are appended, duplicates included. */
  function AddPath(b: Builder, typeAlias: string, options: OrderedMap<Value>): (r: Builder)
    ensures |r.paths| == |b.paths| + 1
    ensures r.paths[..|b.paths|] == b.paths && r.paths[|b.paths|] == PathDecl(typeAlias, options)
    ensures r.steps == b.steps && r.name == b.name && r.data == b.data && r.options == b.options
  {
    b.(paths := b.paths + [PathDecl(typeAlias, options)])
  }

  /** `generateFootprint`: a digest of the name and the raw declarations. */
  function GenerateFootprint(b: Builder): Footprint
  {
    Footprint(b.name, b.steps, b.paths)
  }

  /** The variables the step merges add: `flow_data` when there is a flow. */
  function FlowVars(ctx: RequestContext): (vars: Bindings)
    ensures FlowDataKey in vars <==> ctx.flowData.Some?
    ensures ctx.flowData.Some? ==> vars[FlowDataKey] == ctx.flowData.value
    ensures vars.Keys <= {FlowDataKey}
  {
    match ctx.flowData
    case Some(d) => map[FlowDataKey := d]
    case None => map[]
  }

  /** One step declaration: merge its options, then ask the step builder. */
  function BuildStep(name: string, decl: StepDecl, vars: Bindings, ctx: RequestContext, co: Collaborators)
    : (r: Result<Option<Step>>)
    ensures r.Ok? ==> Merge(decl.options, vars, ctx, co.render).Ok?
    ensures Merge(decl.options, vars, ctx, co.render).Err? ==> r == Err(Merge(decl.options, vars, ctx, co.render).error)
  {
    var options :- Merge(decl.options, vars, ctx, co.render);
    co.stepBuilder(name, decl.typeAlias, options)
  }

  /** How one step declaration, with its name, becomes a step. */
  type StepMaker = (string, StepDecl) -> Result<Option<Step>>

  /** The step maker of a build: `BuildStep` with the request's flow data bound. */
  function StepMakerFor(ctx: RequestContext, co: Collaborators): StepMaker
  {
    (name: string, decl: StepDecl) => BuildStep(name, decl, FlowVars(ctx), ctx, co)
  }

  /** One builder result reaching the map: the step, unless skipped, is
      added under its declared name; then the first-step check runs, even
      for a skipped step. With no first step set yet the declaration becomes
      the first step; otherwise asking a skipped step `isFirst()` is a fatal
      error, and a step that reports it becomes the first step. */
  function AddBuiltStep(m: Map, name: string, step: Option<Step>): (r: Result<Map>)
    ensures r.Err? <==> m.firstStepName.Some? && step.None?
    ensures r.Err? ==> r.error == NullStepIsFirst(name)
    ensures r.Ok? ==> r.value == m.(steps := r.value.steps, firstStepName := r.value.firstStepName)
    ensures r.Ok? && step.None? ==> r.value.steps == m.steps
    ensures r.Ok? && step.Some? ==> r.value.steps == Put(m.steps, name, step.value)
    ensures r.Ok? && (m.firstStepName.None? || step.value.isFirst) ==> r.value.firstStepName == Some(name)
    ensures r.Ok? && m.firstStepName.Some? && !step.value.isFirst ==> r.value.firstStepName == m.firstStepName
  {
    var m1 := if step.Some? then m.(steps := Put(m.steps, name, step.value)) else m;
    if m1.firstStepName.None? then Ok(m1.(firstStepName := Some(name)))
    else if step.None? then Err(NullStepIsFirst(name))
    else if step.value.isFirst then Ok(m1.(firstStepName := Some(name)))
    else Ok(m1)
  }

  /** `buildSteps`, from the given declarations on, in declaration order. */
  function BuildStepsFrom(m: Map, decls: OrderedMap<StepDecl>, make: StepMaker): (r: Result<Map>)
    decreases |decls|
    ensures r.Ok? ==> r.value == m.(steps := r.value.steps, firstStepName := r.value.firstStepName)
    ensures r.Ok? ==> Keys(r.value.steps) <= Keys(m.steps) + Keys(decls)
    ensures r.Ok? && m.firstStepName.Some? ==> r.value.firstStepName.Some?
    ensures r.Ok? && decls != [] ==> r.value.firstStepName.Some?
  {
    if decls == [] then Ok(m)
    else
      var step :- make(decls[0].0, decls[0].1);
      var m1 :- AddBuiltStep(m, decls[0].0, step);
      BuildStepsFrom(m1, decls[1..], make)
  }

  /** The paths indexed under `source`, or none. */
  function PathsOf(paths: OrderedMap<seq<Path>>, source: string): seq<Path>
  {
    match Lookup(paths, source)
    case Some(ps) => ps
    case None => []
  }

  /** `buildPaths`, from the given declarations on: each path is built from
      its raw options against the built steps and appended under the name of
      its source step. */
  function BuildPathsFrom(m: Map, decls: seq<PathDecl>, co: Collaborators): (r: Result<Map>)
    decreases |decls|
    ensures r.Ok? ==> r.value == m.(paths := r.value.paths)
  {
    if decls == [] then Ok(m)
    else
      var path :- co.pathBuilder(decls[0].typeAlias, decls[0].options, m.steps);
      match path
      case None => BuildPathsFrom(m, decls[1..], co)
      case Some(p) =>
        match p.source
        case None => Err(NullPathSource)
        case Some(src) =>
          var paths := Put(m.paths, src.name, PathsOf(m.paths, src.name) + [p]);
          BuildPathsFrom(m.(paths := paths), decls[1..], co)
  }

  /** The map before any step is built: map data merged, options as resolved. */
  function Shell(b: Builder, data: OrderedMap<Value>): Map
  {
    Map(b.name, GenerateFootprint(b), data, b.options, [], [], None)
  }

  /** `build`: merge the map data, then build the steps, then the paths. */
  function Build(b: Builder, ctx: RequestContext, co: Collaborators): (r: Result<Map>)
    ensures r.Ok? ==> r.value.name == b.name && r.value.options == b.options
    ensures r.Ok? ==> r.value.footprint == Footprint(b.name, b.steps, b.paths)
    ensures r.Ok? ==> Merge(b.data, map[], ctx, co.render) == Ok(r.value.data)
  {
    var data :- Merge(b.data, map[], ctx, co.render);
    var withSteps :- BuildStepsFrom(Shell(b, data), b.steps, StepMakerFor(ctx, co));
    BuildPathsFrom(withSteps, b.paths, co)
  }
}
