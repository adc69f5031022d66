/** Whole builds on small concrete declarations, with the end path type as
    the only path type. */
module Scenarios {
  import opened Outcomes
  import opened OrderedMaps
  import opened Values
  import opened TemplateMerge
  import opened MapBuilder
  import opened EndPathType

  /** A PHP option array as the resolver's input. */
  function ToMap(m: OrderedMap<Value>): (r: map<string, Value>)
    ensures r.Keys == Keys(m)
    ensures forall k :: k in r ==> Some(r[k]) == Lookup(m, k)
  {
    map k | k in Keys(m) :: Lookup(m, k).value
  }

  /** The end path type behind the path builder: resolve the options, then
      bind the source. */
  function BuildEndPath(typeAlias: string, options: OrderedMap<Value>, steps: OrderedMap<Step>): (r: Result<Option<Path>>)
    ensures r.Ok? ==> r.value.Some? && r.value.value.source.Some?
  {
    var resolved :- ResolveEndOptions(ToMap(options));
    var path :- BuildPath(Path(typeAlias, resolved, None), steps, resolved);
    Ok(Some(path))
  }

  const Render: Renderer := (template: string, vars: Bindings) => Some(template)

  /** Every step is built; only `B` reports `isFirst()`. */
  const BuildHtmlStep: StepOracle :=
    (name: string, typeAlias: string, options: OrderedMap<Value>) => Ok(Some(Step(name, typeAlias, options, name == "B")))

  const NoRequest: RequestContext := RequestContext(Arr([]), None, None)

  const DonePathOptions: OrderedMap<Value> :=
    [(SourceKey, Str("B")), (LabelKey, Str("done")), (StorageProviderKey, Str("memory"))]

  const DoneResolved: map<string, Value> :=
    map[SourceKey := Str("B"), LabelKey := Str("done"), StorageProviderKey := Str("memory")]

  lemma DoneOptionsResolve()
    ensures ResolveEndOptions(ToMap(DonePathOptions)) == Ok(DoneResolved)
  {
    var m := DonePathOptions;
    assert Keys(m) == EndOptionKeys by {
      assert Keys(m) == {m[0].0} + Keys(m[1..]);
      assert Keys(m[1..]) == {m[1].0} + Keys(m[2..]);
      assert Keys(m[2..]) == {m[2].0} + Keys(m[3..]);
    }
    assert Lookup(m, SourceKey) == Some(Str("B"));
    assert Lookup(m, LabelKey) == Some(Str("done"));
    assert Lookup(m, StorageProviderKey) == Some(Str("memory"));
    assert ToMap(m) == DoneResolved;
    var r := ResolveEndOptions(DoneResolved);
    assert r.Ok?;
    assert r.value == DoneResolved;
  }

  const Co: Collaborators := Collaborators(Render, BuildHtmlStep, BuildEndPath)

  const StepA: Step := Step("A", "html", [], false)
  const StepB: Step := Step("B", "html", [], true)
  const DonePath: Path := Path("end", DoneResolved, Some(StepB))

  /** Steps `A` and `B` and one end path from `B` labelled "done". */
  const Declared: Builder :=
    Builder("map", [], map[], [("A", StepDecl("html", [])), ("B", StepDecl("html", []))], [PathDecl("end", DonePathOptions)])

  /** `addStep("A")`, `addStep("B")`, `addPath("end", …)` declare exactly that. */
  lemma DeclaredByCalls()
    ensures AddPath(AddStep(AddStep(Builder("map", [], map[], [], []), "A", "html", []), "B", "html", []),
                    "end", DonePathOptions) == Declared
  {
    var b1 := AddStep(Builder("map", [], map[], [], []), "A", "html", []);
    assert Keys(b1.steps) == {"A"};
  }

  const AfterSteps: Map := Shell(Declared, []).(steps := [("A", StepA), ("B", StepB)], firstStepName := Some("B"))

  lemma HtmlStepMade(name: string)
    ensures StepMakerFor(NoRequest, Co)(name, StepDecl("html", [])) == Ok(Some(Step(name, "html", [], name == "B")))
  {
    assert Merge([], FlowVars(NoRequest), NoRequest, Render) == Ok([]);
  }

  const AfterA: Map := Shell(Declared, []).(steps := [("A", StepA)], firstStepName := Some("A"))

  lemma StepsAdded()
    ensures AddBuiltStep(Shell(Declared, []), "A", Some(StepA)) == Ok(AfterA)
    ensures AddBuiltStep(AfterA, "B", Some(StepB)) == Ok(AfterSteps)
  {
    assert Keys(AfterA.steps) == {"A"};
    assert Put(AfterA.steps, "B", StepB) == [("A", StepA), ("B", StepB)];
  }

  lemma ScenarioSteps()
    ensures BuildStepsFrom(Shell(Declared, []), Declared.steps, StepMakerFor(NoRequest, Co)) == Ok(AfterSteps)
  {
    var decls := Declared.steps;
    var make := StepMakerFor(NoRequest, Co);
    HtmlStepMade("A");
    HtmlStepMade("B");
    StepsAdded();
    assert BuildStepsFrom(AfterSteps, decls[2..], make) == Ok(AfterSteps);
    assert BuildStepsFrom(AfterA, decls[1..], make) == Ok(AfterSteps);
  }

  lemma DonePathBuilt()
    ensures BuildEndPath("end", DonePathOptions, AfterSteps.steps) == Ok(Some(DonePath))
  {
    DoneOptionsResolve();
    assert Lookup(AfterSteps.steps, "B") == Some(StepB);
  }

  lemma ScenarioPaths()
    ensures BuildPathsFrom(AfterSteps, Declared.paths, Co) == Ok(AfterSteps.(paths := [("B", [DonePath])]))
  {
    var decls := Declared.paths;
    DonePathBuilt();
    var done := AfterSteps.(paths := [("B", [DonePath])]);
    assert PathsOf(AfterSteps.paths, "B") + [DonePath] == [DonePath];
    assert Put(AfterSteps.paths, "B", [DonePath]) == [("B", [DonePath])];
    assert BuildPathsFrom(done, decls[1..], Co) == Ok(done);
  }

  /** Steps `A` then `B`, `B` reporting `isFirst()`, and one end path from `B`
      labelled "done": the build succeeds, `B` is the first step and has
      exactly that path. */
  lemma LastIsFirstScenario()
    ensures Build(Declared, NoRequest, Co).Ok?
    ensures Build(Declared, NoRequest, Co).value.firstStepName == Some("B")
    ensures PathsOf(Build(Declared, NoRequest, Co).value.paths, "B") == [DonePath]
  {
    assert Merge([], map[], NoRequest, Render) == Ok([]);
    ScenarioSteps();
    ScenarioPaths();
    assert PathsOf([("B", [DonePath])], "B") == [DonePath];
  }
}
