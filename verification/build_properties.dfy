/** What a build produces: steps in declaration order under their names, the
    first-step rule, paths indexed by source, and a request-independent
    footprint. */
module BuildProperties {
  import opened Outcomes
  import opened OrderedMaps
  import opened TemplateMerge
  import opened MapBuilder

  /** What the `i`-th declaration yields: merge, then the step builder. */
  function Outcome(decls: OrderedMap<StepDecl>, i: nat, make: StepMaker)
    : Result<Option<Step>>
    requires i < |decls|
  {
    make(decls[i].0, decls[i].1)
  }

  /** The `i`-th declaration yields a step that reports `isFirst()`. */
  predicate Flagged(decls: OrderedMap<StepDecl>, i: nat, make: StepMaker)
    requires i < |decls|
  {
    var o := Outcome(decls, i, make);
    o.Ok? && o.value.Some? && o.value.value.isFirst
  }

  /** The last declaration whose step reports `isFirst()`, if any. */
  ghost function LastFlagged(decls: OrderedMap<StepDecl>, make: StepMaker)
    : (j: Option<nat>)
    decreases |decls|
    ensures j.Some? ==> j.value < |decls| && Flagged(decls, j.value, make)
                        && forall q :: j.value < q < |decls| ==> !Flagged(decls, q, make)
    ensures j.None? ==> forall q :: 0 <= q < |decls| ==> !Flagged(decls, q, make)
  {
    if decls == [] then None
    else
      var rest := LastFlagged(decls[1..], make);
      assert forall q :: 1 <= q < |decls| ==> Flagged(decls, q, make) == Flagged(decls[1..], q - 1, make);
      match rest
      case Some(j) => Some(j + 1)
      case None => if Flagged(decls, 0, make) then Some(0) else None
  }

  /** The index of the declaration that ends up as the first step: the last
      one reporting `isFirst()`, else the first declaration. */
  ghost function FirstIndex(decls: OrderedMap<StepDecl>, make: StepMaker): nat
  {
    match LastFlagged(decls, make)
    case Some(j) => j
    case None => 0
  }

  /** Reference: the steps built, in declaration order, under their declared names. */
  ghost function BuiltSteps(decls: OrderedMap<StepDecl>, make: StepMaker)
    : OrderedMap<Step>
    decreases |decls|
  {
    if decls == [] then []
    else
      var rest := BuiltSteps(decls[1..], make);
      match Outcome(decls, 0, make)
      case Ok(Some(s)) => [(decls[0].0, s)] + rest
      case _ => rest
  }

  /** Reference: the paths built with source step `source`, in declaration order. */
  ghost function PathsFor(decls: seq<PathDecl>, source: string, steps: OrderedMap<Step>, co: Collaborators)
    : seq<Path>
    decreases |decls|
  {
    if decls == [] then []
    else
      var rest := PathsFor(decls[1..], source, steps, co);
      match co.pathBuilder(decls[0].typeAlias, decls[0].options, steps)
      case Ok(Some(p)) =>
        if p.source.Some? && p.source.value.name == source then [p] + rest else rest
      case _ => rest
  }

  // ---------------------------------------------------------------- steps

  /** Unfolds the first declaration of a successful step build. */
  lemma StepsUnfold(m: Map, decls: OrderedMap<StepDecl>, make: StepMaker)
    requires decls != [] && BuildStepsFrom(m, decls, make).Ok?
    ensures Outcome(decls, 0, make).Ok?
    ensures AddBuiltStep(m, decls[0].0, Outcome(decls, 0, make).value).Ok?
    ensures BuildStepsFrom(m, decls, make)
            == BuildStepsFrom(AddBuiltStep(m, decls[0].0, Outcome(decls, 0, make).value).value,
                              decls[1..], make)
  {
  }

  /** Built steps are appended under their declared names, in declaration order. */
  lemma {:induction false} StepsInDeclarationOrder(m: Map, decls: OrderedMap<StepDecl>, make: StepMaker)
    requires UniqueKeys(decls) && Keys(m.steps) !! Keys(decls)
    requires BuildStepsFrom(m, decls, make).Ok?
    ensures BuildStepsFrom(m, decls, make).value.steps == m.steps + BuiltSteps(decls, make)
    decreases |decls|
  {
    if decls != [] {
      var name := decls[0].0;
      StepsUnfold(m, decls, make);
      var step := Outcome(decls, 0, make).value;
      var next := AddBuiltStep(m, name, step).value;
      FirstStepStaysFresh(m, decls, next.steps, step);
      StepsInDeclarationOrder(next, decls[1..], make);
      AppendBuiltStep(m.steps, decls, next.steps, make);
    }
  }

  lemma FirstStepStaysFresh(m: Map, decls: OrderedMap<StepDecl>, steps: OrderedMap<Step>, step: Option<Step>)
    requires UniqueKeys(decls) && decls != [] && Keys(m.steps) !! Keys(decls)
    requires step.None? ==> steps == m.steps
    requires step.Some? ==> steps == Put(m.steps, decls[0].0, step.value)
    ensures Keys(steps) !! Keys(decls[1..])
    ensures step.Some? ==> steps == m.steps + [(decls[0].0, step.value)]
  {
    assert decls[0].0 in Keys(decls);
  }

  lemma AppendBuiltStep(steps: OrderedMap<Step>, decls: OrderedMap<StepDecl>, next: OrderedMap<Step>,
                        make: StepMaker)
    requires decls != [] && Outcome(decls, 0, make).Ok?
    requires Outcome(decls, 0, make).value.None? ==> next == steps
    requires Outcome(decls, 0, make).value.Some? ==>
               next == steps + [(decls[0].0, Outcome(decls, 0, make).value.value)]
    ensures next + BuiltSteps(decls[1..], make) == steps + BuiltSteps(decls, make)
  {
    var rest := BuiltSteps(decls[1..], make);
    var o := Outcome(decls, 0, make).value;
    if o.Some? {
      assert BuiltSteps(decls, make) == [(decls[0].0, o.value)] + rest;
      assert steps + [(decls[0].0, o.value)] + rest == steps + ([(decls[0].0, o.value)] + rest);
    } else {
      assert BuiltSteps(decls, make) == rest;
    }
  }

  /** Only declared names are built. */
  lemma {:induction false} BuiltStepsKeys(decls: OrderedMap<StepDecl>, make: StepMaker)
    ensures Keys(BuiltSteps(decls, make)) <= Keys(decls)
    decreases |decls|
  {
    if decls != [] {
      BuiltStepsKeys(decls[1..], make);
    }
  }

  lemma {:induction false} BuiltStepsLookup(decls: OrderedMap<StepDecl>, i: nat, make: StepMaker)
    requires UniqueKeys(decls) && i < |decls| && Outcome(decls, i, make).Ok?
    ensures Lookup(BuiltSteps(decls, make), decls[i].0) == Outcome(decls, i, make).value
    decreases i
  {
    var rest := BuiltSteps(decls[1..], make);
    if i == 0 {
      BuiltStepsKeys(decls[1..], make);
      assert decls[0].0 !in Keys(rest);
    } else {
      UniqueKeysDistinct(decls, 0, i);
      assert Outcome(decls[1..], i - 1, make) == Outcome(decls, i, make);
      BuiltStepsLookup(decls[1..], i - 1, make);
    }
  }

  /** A successful step build had every declaration succeed. */
  lemma {:induction false} StepsBuildSucceeded(m: Map, decls: OrderedMap<StepDecl>, make: StepMaker)
    requires BuildStepsFrom(m, decls, make).Ok?
    ensures forall i :: 0 <= i < |decls| ==> Outcome(decls, i, make).Ok?
    decreases |decls|
  {
    if decls != [] {
      StepsUnfold(m, decls, make);
      var next := AddBuiltStep(m, decls[0].0, Outcome(decls, 0, make).value).value;
      StepsBuildSucceeded(next, decls[1..], make);
      forall i | 1 <= i < |decls|
        ensures Outcome(decls, i, make).Ok?
      {
        assert Outcome(decls, i, make) == Outcome(decls[1..], i - 1, make);
      }
    }
  }

  /** In a successful step build every declaration after the one that set
      the first step yielded a step: none of them was skipped. */
  lemma {:induction false} NoLaterStepSkipped(m: Map, decls: OrderedMap<StepDecl>, make: StepMaker)
    requires BuildStepsFrom(m, decls, make).Ok?
    ensures forall i :: 0 <= i < |decls| && (m.firstStepName.Some? || i > 0) ==>
              Outcome(decls, i, make).Ok? && Outcome(decls, i, make).value.Some?
    decreases |decls|
  {
    if decls != [] {
      StepsUnfold(m, decls, make);
      var o := Outcome(decls, 0, make).value;
      assert m.firstStepName.Some? ==> o.Some?;
      var next := AddBuiltStep(m, decls[0].0, o).value;
      assert next.firstStepName.Some?;
      NoLaterStepSkipped(next, decls[1..], make);
      forall i | 1 <= i < |decls|
        ensures Outcome(decls, i, make).Ok? && Outcome(decls, i, make).value.Some?
      {
        assert Outcome(decls, i, make) == Outcome(decls[1..], i - 1, make);
      }
    }
  }

  /** Every declaration's merge and step builder succeed, and every one
      processed once a first step is set yields a step. */
  predicate StepDeclsOk(firstSet: bool, decls: OrderedMap<StepDecl>, make: StepMaker)
  {
    forall i :: 0 <= i < |decls| ==>
      Outcome(decls, i, make).Ok? && ((firstSet || i > 0) ==> Outcome(decls, i, make).value.Some?)
  }

  /** A step build succeeds exactly when no declaration's merge or step
      builder fails and no declaration after the first-step name is set is
      skipped. */
  lemma {:induction false} StepsBuildSucceedsIff(m: Map, decls: OrderedMap<StepDecl>, make: StepMaker)
    ensures BuildStepsFrom(m, decls, make).Ok? <==> StepDeclsOk(m.firstStepName.Some?, decls, make)
    decreases |decls|
  {
    if BuildStepsFrom(m, decls, make).Ok? {
      StepsBuildSucceeded(m, decls, make);
      NoLaterStepSkipped(m, decls, make);
    } else if decls != [] && StepDeclsOk(m.firstStepName.Some?, decls, make) {
      var step := Outcome(decls, 0, make).value;
      var next := AddBuiltStep(m, decls[0].0, step).value;
      assert BuildStepsFrom(m, decls, make) == BuildStepsFrom(next, decls[1..], make);
      forall q | 0 <= q < |decls| - 1
        ensures Outcome(decls[1..], q, make) == Outcome(decls, q + 1, make)
      {
      }
      StepsBuildSucceedsIff(next, decls[1..], make);
      assert false;
    }
  }

  /** With a first step already set, the last step reporting `isFirst()`
      replaces it; otherwise it stays. */
  lemma {:induction false} FirstStepOnceSet(m: Map, decls: OrderedMap<StepDecl>, make: StepMaker)
    requires m.firstStepName.Some?
    requires BuildStepsFrom(m, decls, make).Ok?
    ensures BuildStepsFrom(m, decls, make).value.firstStepName ==
              match LastFlagged(decls, make)
              case Some(j) => Some(decls[j].0)
              case None => m.firstStepName
    decreases |decls|
  {
    if decls != [] {
      StepsUnfold(m, decls, make);
      var next := AddBuiltStep(m, decls[0].0, Outcome(decls, 0, make).value).value;
      FirstStepOnceSet(next, decls[1..], make);
    }
  }

  /** The first step name is that of the last declaration whose step reports
      `isFirst()`, and otherwise that of the first declaration processed,
      whether or not the builder skipped it. */
  lemma FirstStepRule(m: Map, decls: OrderedMap<StepDecl>, make: StepMaker)
    requires m.firstStepName.None? && decls != []
    requires BuildStepsFrom(m, decls, make).Ok?
    ensures BuildStepsFrom(m, decls, make).value.firstStepName == Some(decls[FirstIndex(decls, make)].0)
  {
    StepsUnfold(m, decls, make);
    var next := AddBuiltStep(m, decls[0].0, Outcome(decls, 0, make).value).value;
    FirstStepOnceSet(next, decls[1..], make);
  }

  /** A skipped declaration after the first one is fatal: its `isFirst()`
      is asked of `null`. */
  lemma {:induction false} SkippedLaterStepIsFatal(m: Map, decls: OrderedMap<StepDecl>, i: nat, make: StepMaker)
    requires i < |decls| && (m.firstStepName.Some? || i > 0)
    requires forall q :: 0 <= q < i ==>
               Outcome(decls, q, make).Ok? && ((m.firstStepName.Some? || q > 0) ==> Outcome(decls, q, make).value.Some?)
    requires Outcome(decls, i, make) == Ok(None)
    ensures BuildStepsFrom(m, decls, make) == Err(NullStepIsFirst(decls[i].0))
    decreases i
  {
    if i > 0 {
      var next := AddBuiltStep(m, decls[0].0, Outcome(decls, 0, make).value).value;
      assert BuildStepsFrom(m, decls, make) == BuildStepsFrom(next, decls[1..], make);
      forall q | 0 <= q <= i - 1
        ensures Outcome(decls[1..], q, make) == Outcome(decls, q + 1, make)
      {
      }
      SkippedLaterStepIsFatal(next, decls[1..], i - 1, make);
    }
  }

  /** A skipped first declaration still becomes the first step when no later
      step reports `isFirst()`, although it is not among the built steps. */
  lemma SkippedFirstStepStillNamedFirst(m: Map, decls: OrderedMap<StepDecl>, make: StepMaker)
    requires m.firstStepName.None? && m.steps == [] && decls != [] && UniqueKeys(decls)
    requires Outcome(decls, 0, make) == Ok(None)
    requires LastFlagged(decls, make).None?
    requires BuildStepsFrom(m, decls, make).Ok?
    ensures BuildStepsFrom(m, decls, make).value.firstStepName == Some(decls[0].0)
    ensures decls[0].0 !in Keys(BuildStepsFrom(m, decls, make).value.steps)
  {
    FirstStepRule(m, decls, make);
    StepsInDeclarationOrder(m, decls, make);
    BuiltStepsLookup(decls, 0, make);
  }

  // ---------------------------------------------------------------- paths

  /** Paths built from raw options against the built steps, appended under
      their source step's name, in declaration order. */
  lemma {:induction false} PathsIndexedBySource(m: Map, decls: seq<PathDecl>, co: Collaborators, source: string)
    requires BuildPathsFrom(m, decls, co).Ok?
    ensures PathsOf(BuildPathsFrom(m, decls, co).value.paths, source)
            == PathsOf(m.paths, source) + PathsFor(decls, source, m.steps, co)
    decreases |decls|
  {
    if decls != [] {
      var path := co.pathBuilder(decls[0].typeAlias, decls[0].options, m.steps).value;
      match path
      case None =>
        PathsIndexedBySource(m, decls[1..], co, source);
      case Some(p) =>
        var src := p.source.value;
        var m1 := m.(paths := Put(m.paths, src.name, PathsOf(m.paths, src.name) + [p]));
        assert BuildPathsFrom(m, decls, co) == BuildPathsFrom(m1, decls[1..], co);
        PathsIndexedBySource(m1, decls[1..], co, source);
        if src.name == source {
          assert PathsOf(m1.paths, source) == PathsOf(m.paths, source) + [p];
        } else {
          assert PathsOf(m1.paths, source) == PathsOf(m.paths, source);
        }
    }
  }

  /** The `d` declaration's path is built without error and, when there is
      one, it names a source step. */
  predicate PathDeclOk(d: PathDecl, steps: OrderedMap<Step>, co: Collaborators)
  {
    var r := co.pathBuilder(d.typeAlias, d.options, steps);
    r.Ok? && (r.value.Some? ==> r.value.value.source.Some?)
  }

  /** Building the paths succeeds exactly when no declaration's path builder
      fails and no built path lacks a source step. */
  lemma {:induction false} PathsBuildSucceedsIff(m: Map, decls: seq<PathDecl>, co: Collaborators)
    ensures BuildPathsFrom(m, decls, co).Ok? <==>
              forall i :: 0 <= i < |decls| ==> PathDeclOk(decls[i], m.steps, co)
    decreases |decls|
  {
    if decls != [] {
      var built := co.pathBuilder(decls[0].typeAlias, decls[0].options, m.steps);
      assert forall i :: 1 <= i < |decls| ==> decls[i] == decls[1..][i - 1];
      if built.Ok? {
        match built.value
        case None =>
          PathsBuildSucceedsIff(m, decls[1..], co);
        case Some(p) =>
          if p.source.Some? {
            var src := p.source.value;
            var m1 := m.(paths := Put(m.paths, src.name, PathsOf(m.paths, src.name) + [p]));
            assert BuildPathsFrom(m, decls, co) == BuildPathsFrom(m1, decls[1..], co);
            PathsBuildSucceedsIff(m1, decls[1..], co);
          } else {
            assert !PathDeclOk(decls[0], m.steps, co);
          }
      } else {
        assert !PathDeclOk(decls[0], m.steps, co);
      }
    }
  }

  // ---------------------------------------------------------------- build

  /** What a step build from an empty map assembles. */
  lemma StepsAssembly(m: Map, decls: OrderedMap<StepDecl>, make: StepMaker)
    requires m.steps == [] && m.firstStepName.None? && UniqueKeys(decls)
    requires BuildStepsFrom(m, decls, make).Ok?
    ensures BuildStepsFrom(m, decls, make).value.steps == BuiltSteps(decls, make)
    ensures forall i :: 0 <= i < |decls| ==>
              && Outcome(decls, i, make).Ok?
              && Lookup(BuildStepsFrom(m, decls, make).value.steps, decls[i].0)
                 == Outcome(decls, i, make).value
    ensures decls == [] ==> BuildStepsFrom(m, decls, make).value.firstStepName.None?
    ensures decls != [] ==> BuildStepsFrom(m, decls, make).value.firstStepName
                            == Some(decls[FirstIndex(decls, make)].0)
  {
    StepsInDeclarationOrder(m, decls, make);
    assert m.steps + BuiltSteps(decls, make) == BuiltSteps(decls, make);
    StepsBuildSucceeded(m, decls, make);
    forall i | 0 <= i < |decls|
      ensures Lookup(BuiltSteps(decls, make), decls[i].0) == Outcome(decls, i, make).value
    {
      BuiltStepsLookup(decls, i, make);
    }
    if decls != [] {
      FirstStepRule(m, decls, make);
    }
  }

  /** What a successful build assembles from the declarations: the steps
      from merged options with `flow_data` bound, then the paths from raw
      options against all built steps. */
  lemma BuildAssembly(b: Builder, ctx: RequestContext, co: Collaborators)
    requires UniqueKeys(b.steps)
    requires Build(b, ctx, co).Ok?
    ensures Build(b, ctx, co).value.steps == BuiltSteps(b.steps, StepMakerFor(ctx, co))
    ensures forall i :: 0 <= i < |b.steps| ==>
              && Outcome(b.steps, i, StepMakerFor(ctx, co)).Ok?
              && Lookup(Build(b, ctx, co).value.steps, b.steps[i].0) == Outcome(b.steps, i, StepMakerFor(ctx, co)).value
    ensures b.steps == [] ==> Build(b, ctx, co).value.firstStepName.None?
    ensures b.steps != [] ==> Build(b, ctx, co).value.firstStepName
                              == Some(b.steps[FirstIndex(b.steps, StepMakerFor(ctx, co))].0)
    ensures forall src :: PathsOf(Build(b, ctx, co).value.paths, src)
                          == PathsFor(b.paths, src, Build(b, ctx, co).value.steps, co)
    ensures forall i :: 0 <= i < |b.paths| ==> PathDeclOk(b.paths[i], Build(b, ctx, co).value.steps, co)
  {
    var data := Merge(b.data, map[], ctx, co.render).value;
    var make := StepMakerFor(ctx, co);
    var shell := Shell(b, data);
    var withSteps := BuildStepsFrom(shell, b.steps, make).value;
    var r := Build(b, ctx, co).value;
    assert r == BuildPathsFrom(withSteps, b.paths, co).value;
    StepsAssembly(shell, b.steps, make);
    forall src
      ensures PathsOf(r.paths, src) == PathsFor(b.paths, src, r.steps, co)
    {
      PathsIndexedBySource(withSteps, b.paths, co, src);
    }
    PathsBuildSucceedsIff(withSteps, b.paths, co);
  }

  /** Once the data and the steps are built, the build fails exactly when
      some path declaration's builder fails or yields a path without a
      source step. */
  lemma BuildFailsOnPathIff(b: Builder, ctx: RequestContext, co: Collaborators)
    requires Merge(b.data, map[], ctx, co.render).Ok?
    requires BuildStepsFrom(Shell(b, Merge(b.data, map[], ctx, co.render).value), b.steps, StepMakerFor(ctx, co)).Ok?
    ensures Build(b, ctx, co).Err? <==>
              exists i :: 0 <= i < |b.paths| &&
                !PathDeclOk(b.paths[i],
                            BuildStepsFrom(Shell(b, Merge(b.data, map[], ctx, co.render).value),
                                           b.steps, StepMakerFor(ctx, co)).value.steps, co)
  {
    var data := Merge(b.data, map[], ctx, co.render).value;
    var withSteps := BuildStepsFrom(Shell(b, data), b.steps, StepMakerFor(ctx, co)).value;
    assert Build(b, ctx, co) == BuildPathsFrom(withSteps, b.paths, co);
    PathsBuildSucceedsIff(withSteps, b.paths, co);
  }

  /** A build succeeds exactly when the map data merges, every step
      declaration succeeds with no later one skipped, and every path
      declaration succeeds against the reference steps. */
  lemma BuildSucceedsIff(b: Builder, ctx: RequestContext, co: Collaborators)
    requires UniqueKeys(b.steps)
    ensures Build(b, ctx, co).Ok? <==>
              && Merge(b.data, map[], ctx, co.render).Ok?
              && StepDeclsOk(false, b.steps, StepMakerFor(ctx, co))
              && forall i :: 0 <= i < |b.paths| ==>
                   PathDeclOk(b.paths[i], BuiltSteps(b.steps, StepMakerFor(ctx, co)), co)
  {
    var make := StepMakerFor(ctx, co);
    if Merge(b.data, map[], ctx, co.render).Ok? {
      var shell := Shell(b, Merge(b.data, map[], ctx, co.render).value);
      StepsBuildSucceedsIff(shell, b.steps, make);
      if BuildStepsFrom(shell, b.steps, make).Ok? {
        var withSteps := BuildStepsFrom(shell, b.steps, make).value;
        StepsAssembly(shell, b.steps, make);
        assert Build(b, ctx, co) == BuildPathsFrom(withSteps, b.paths, co);
        PathsBuildSucceedsIff(withSteps, b.paths, co);
      }
    }
  }

  /** Builds of one builder under different requests share the footprint. */
  lemma FootprintIndependentOfRequest(b: Builder, ctx1: RequestContext, co1: Collaborators,
                                      ctx2: RequestContext, co2: Collaborators)
    requires Build(b, ctx1, co1).Ok? && Build(b, ctx2, co2).Ok?
    ensures Build(b, ctx1, co1).value.footprint == Build(b, ctx2, co2).value.footprint == GenerateFootprint(b)
  {
  }

  /** The footprint depends on the name and raw declarations only: not on
      the map data or options. */
  lemma FootprintOnlyFromDeclarations(b1: Builder, b2: Builder)
    ensures GenerateFootprint(b1) == GenerateFootprint(b2) <==>
              b1.name == b2.name && b1.steps == b2.steps && b1.paths == b2.paths
  {
  }
}
